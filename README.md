# TaskFlow task store, in Dafny

TaskFlow is a small task-management service: a PostgreSQL table `tasks`, a FastAPI application with endpoints to
list, get, create, update and delete tasks, list the tasks of one assignee and count tasks by status and assignee,
and a command-line client that turns `taskflow <command> [--flag VALUE ...]` into one HTTP request.

This project models that core and proves properties of the model:

- `wrappers.dfy` defines `Option`, `Result`, and the JSON values (`Json.Value`: a string or null) that appear in
  request and response bodies.
- `text.dfy` (module `Text`) defines fixed-width numerals in base 10 and 16. Reading a numeral back gives the
  number written.
- `models.dfy` (module `Models`) holds the `tasks` row and the ORM object before a flush:
  - the column defaults, the NOT NULL columns and the VARCHAR bounds;
  - a timestamp type with its chronological order;
  - `str(uuid)` and `datetime.isoformat()`, both proved injective;
  - `Task.to_dict`, proved to lose nothing.
- `ordering.dfy` (module `Ordering`) is `ORDER BY created_at DESC`: a listing of a set of ids, each exactly once,
  newest first.
- `api.dfy` (module `Api`) holds the request bodies and the handlers:
  - the request bodies as the validator sees them;
  - the read-only handlers (`list_tasks`, `get_task`, `get_tasks_by_assignee`) as functions of the table;
  - the table as a class `TaskTable` whose methods are `create_task`, `update_task` and `delete_task`. The
    `setattr` loop of `update_task` is the method `SetAttributes`.
- `stats.dfy` (module `Stats`) is `get_stats`, with its two counting loops.
- `cli.dfy` (module `Cli`) is the client's `main`:
  - the three argument-scanning loops;
  - the `create` defaults;
  - the query parameters of `list` and the bodies of `create` and `update`;
  - lemmas that connect these to what the service does with them.

The model follows the code:

- Only `title`, `assignee` and `created_by` are required in a create body. No check is made that a string is
  non-empty or that a status is one of the five listed ones.
- A PATCH that sets a NOT NULL column to null passes validation. The database then refuses it at commit, which is
  a 500 with nothing changed. The model returns `StorageError` for this, and likewise for a value longer than its
  column.
- A new `updated_at` is any clock reading not earlier than the stored ones. The model therefore proves that
  `updated_at` never decreases, not that it strictly increases.
- `created_at` and `updated_at` of a new row come from two separate clock readings. The model takes both as
  parameters, with the first not later than the second. It does not claim that they are equal.
- Fresh ids (`uuid.uuid4()`) and the current time (`datetime.utcnow()`) are parameters of the methods.

## Model

| member | source | states |
|---|---|---|
| Models.EarlierIsStrictTotal | main.py:96 | two distinct timestamps are ordered one way or the other and never both, so ordering by `created_at` is well defined |
| Models.AtOrBeforeTransitive | main.py:145 | "not later than" is transitive; this is what keeps `created_at <= updated_at` through updates |
| Models.IsoFormat | models.py:39-41 | `isoformat()` of a naive timestamp is 19 characters, or 26 when it has microseconds |
| Models.IsoFormatInjective | models.py:39-41 | two timestamps with the same ISO text are the same timestamp |
| Models.UuidText | models.py:32 | `str(uuid)` is 36 characters |
| Models.UuidTextDigits | models.py:32 | positions 8, 13, 18 and 23 hold hyphens, and the 32 hexadecimal digits fill the 8-4-4-4-12 groups between them in order |
| Models.UuidTextInjective | models.py:32 | distinct UUIDs have distinct texts |
| Models.NewTask | models.py:17-27 | a new row takes each given value; an omitted status, priority or category becomes "backlog", "medium" or "dev"; the timestamps come from the two clock readings |
| Models.Flush | models.py:18-27 | an object is written exactly when `title`, `assignee`, `status`, `priority` and `category` are non-null and every string fits its bound (255, 50, 50, 20, 50, 50); the row written fits the bounds and loads back to the same object |
| Models.FlushLoad | models.py:18-27 | a row within the bounds survives a load (`Load`, every column carried into the object) and write-back unchanged |
| Models.ToDict | models.py:29-43 | `to_dict` gives exactly the eleven keys; the string columns are copied unchanged; the id is its text; the timestamps are their ISO text; a null description or due date becomes null (through `TextOrNull` and `IsoOrNull`, which build the eleven-key `TaskObject`) |
| Models.ToDictInjective | models.py:29-43 | two rows with the same dictionary are the same row |
| Ordering.AheadTotal | main.py:96 | any two rows can be placed in the newest-first order, and only equal ids sit both ways |
| Ordering.AheadTransitive | main.py:96 | the newest-first placing is transitive |
| Ordering.FirstExists | main.py:96 | every non-empty set of rows has a row that may be listed first |
| Ordering.FirstUnique | main.py:96 | that first row is unique |
| Ordering.NewestFirst | main.py:96 | the ordered listing holds each id of the set exactly once, and every id is placed newest-first before each one after it |
| Api.ValidateCreate | main.py:28-37 | a create body is accepted exactly when `title`, `assignee` and `created_by` are strings and `status`, `priority` and `category` are not null; the accepted payload copies the fields, with "backlog", "medium" and "dev" for those left out and `None` for an absent or null description or due date; otherwise 422 |
| Api.Inserted | main.py:112-122 | the inserted row copies every payload field, takes the supplied id and the two clock readings |
| Api.CreateDefaults | main.py:32-34 | a body without status, priority and category creates a row with "backlog", "medium" and "dev" |
| Api.UpdateData | main.py:141 | `dict(exclude_unset=True)`: one `setattr` item for each field the body sets, null included, in declaration order; what applying them does is the contract of `Api.UpdateLoopIsFieldwise` |
| Api.Apply | main.py:143 | one `setattr`: the named field takes the value and every other field is kept; proved field by field in `Api.AssignmentsOverwrite` |
| Api.ApplyAll | main.py:142-143 | the items applied first to last, the loop's running state; `Api.ApplyAllStep` is one iteration, `Api.SetAttributes` the loop |
| Api.ApplyAlso | main.py:141-143 | adding an assignment for a set field adds exactly one `setattr` at the end of the loop |
| Api.UpdateLoopIsFieldwise | main.py:141-143 | the `setattr` loop over `dict(exclude_unset=True)` overwrites each field the body sets, even with null, and keeps every other field |
| Api.AssignmentsOverwrite | main.py:141-143 | the same for any object: each set field is overwritten, each unset one kept |
| Api.Patched | main.py:136-148 | an update of a row within the bounds is written exactly when it clears no NOT NULL column and every new string fits its column; the written row fits the bounds; it keeps `id`, `created_at` and `created_by`; its `updated_at` is the new clock reading; each field the body sets is overwritten and each other kept |
| Api.SetAttributes | main.py:141-146 | the loop, the `updated_at` assignment and the write give exactly the patched row, or nothing when the database refuses it |
| Api.AheadNotEarlier | main.py:96 | a row placed before another was not created earlier |
| Api.Listing | main.py:96-97 | the rows of a set of ids, each once, with `created_at` non-increasing |
| Api.Selected | main.py:87-94 | the filtered ids are ids of the table |
| Api.Matches | main.py:89-94 | the chained filters: a row passes exactly when it equals every truthy filter; the set it selects is the contract of `Api.ListTasks` |
| Api.ListTasks | main.py:87-97 | `list_tasks` returns exactly the rows that match every non-empty filter given, each once, newest first |
| Api.ListUnfiltered | main.py:89-96 | with every filter missing or empty the list holds every row |
| Api.GetTask | main.py:103-106 | `get_task` returns the row stored under the id, or 404 exactly when there is none |
| Api.TasksByAssignee | main.py:166-167 | `get_tasks_by_assignee` returns exactly the rows of that assignee, each once, newest first; an empty assignee filters too |
| Api.ByAssigneeIsFilteredList | main.py:163-167 | for a non-empty assignee it gives the same list as `list_tasks` with only that filter, under the model's tie-break for equal `created_at` |
| Api.TaskTable.Create | main.py:109-126 | `create_task` adds exactly one row, under the fresh id, with the payload copied, and changes nothing else; a value too long for its column is a 500 with the table unchanged |
| Api.TaskTable.Update | main.py:129-148 | `update_task` gives 404 for an unknown id and changes nothing; otherwise it replaces only that row with the patched row, or gives a 500 with the table unchanged when the database refuses the write; the table invariant is kept |
| Api.TaskTable.Delete | main.py:151-160 | `delete_task` removes exactly the given id and nothing else; it gives 404 exactly when the id is absent; afterwards `get_task` gives 404 |
| Api.StatusOnlyPatch | main.py:141-145 | a body that sets only `status` changes the status and `updated_at` and nothing else |
| Api.CreateRequiredOnly | main.py:109-126 | creating with only the required fields stores a row with the defaults |
| Api.MarkDone | main.py:129-148 | moving a stored row to "done" changes only its status and `updated_at` |
| Api.DeleteTwice | main.py:151-160 | after a delete, a lookup and a second delete both give 404 |
| Api.Lifecycle | main.py:109-160 | create, mark done and delete leave the table as it was |
| Stats.GetStats | main.py:170-187 | `total` is the number of rows; `by_status` has exactly the five listed statuses and `by_assignee` exactly the six listed assignees as keys; each holds the number of rows with that value |
| Stats.Count | main.py:178 | `.filter(column == v).count()`: the number of rows holding `v`; `Stats.SumIsCoverage` and `Stats.Coverage` relate the counts to `total` |
| Stats.StatsAddUp | main.py:173-181 | the `by_status` counts add up to at most `total`, and to exactly `total` exactly when every row's status is one of the five; likewise for the six assignees |
| Stats.TallyAddsUp | main.py:177-181 | the same for any list of distinct values and either column |
| Stats.SumIsCoverage | main.py:177-181 | adding the counts of distinct values counts each row with one of those values exactly once |
| Stats.Coverage | main.py:173-181 | the rows with a listed value are at most all rows, and are all rows exactly when no row has another value |
| Cli.LastValueIsLastSetting | cli.py:112-116 | a flag gets no value exactly when no position holds it with a token after it; otherwise it gets the token after the last such position |
| Cli.LaterFlagWins | cli.py:131-141 | a flag repeated later overrides the earlier value |
| Cli.TrailingFlagIgnored | cli.py:113-116 | a flag in the last position is never read |
| Cli.SetsAt | cli.py:112 | the loops' test `arg == flag and i + k < len(sys.argv)`: the flag is at this position and a token follows it |
| Cli.LastValue | cli.py:111-115 | the value a scan leaves for one flag; its meaning, the token after the last setting position, is the contract of `Cli.LastValueIsLastSetting` |
| Cli.ListArgs | cli.py:110-116 | the `list` loop leaves `assignee` and `status` at the value of their last occurrence with a token after it, or `None` |
| Cli.CreateArgs | cli.py:124-141 | the `create` loop leaves each of the five options at its last given value, or at `None`, "mira", "backlog", "medium" or "dev" |
| Cli.CreateWithoutFlags | cli.py:124-129 | with no flags, `create` sends no description, "mira", "backlog", "medium" and "dev" |
| Cli.UpdateArgs | cli.py:150-161 | the `update` loop collects only the keys status, assignee, priority and title, each holding the last value given for it |
| Cli.ListParams | cli.py:15-19 | the list query parameters contain `assignee` or `status` exactly when that argument is non-empty, with its value, and nothing else |
| Cli.QueryOf | main.py:80-83 | the three query parameters as the service reads them, each present exactly when sent (through `Lookup`); used by `Cli.ListParamsSameListing` |
| Cli.ListParamsSameListing | cli.py:15-19 | dropping the empty parameters does not change what the service lists (the same sequence under the model's tie-break) |
| Cli.CreatePayload | cli.py:36-44 | the create body has exactly the seven keys, and only `description` may be null |
| Cli.UpdatePayload | cli.py:59 | the update body keeps exactly the keyword arguments that are not `None`, each as its value |
| Cli.Passed | cli.py:163 | `update_task(task_id, **kwargs)`: every collected value arrives as a non-`None` keyword argument; see `Cli.UpdatePayloadFromArgs` |
| Cli.UpdatePayloadFromArgs | cli.py:59 | the values `main` passes are never `None`, so every collected option is sent |
| Cli.CreatePayloadAccepted | cli.py:34-44 | the client's create body, read field by field as absent, null or string (`TextField`), always passes validation, and gives the task the options described, created by "cli" |
| Cli.UpdateFromArgsNeverClears | cli.py:153-163 | a client update never clears a column and never sets description, category or due date; the service refuses it only for a value too long for its column |
| Cli.Run | cli.py:96-178 | the client exits with status 1 exactly when there is no command, the command is unknown, or `create`, `update` or `delete` has no third argument; otherwise it sends the one request of its command, built from the scanned options |

## Left out

- HTTP transport, FastAPI routing, CORS, JSON encoding, the startup hook, uvicorn and the constant health check.
  They carry no logic of the task store.
- database.py is not part of this model. It covers engine and session setup, the connection URL from the
  environment, per-request sessions and `create_all`. The table is a map from id to row held by `TaskTable`.
- Path ids as text: the handlers take a `Uuid`. Casting the path text to a UUID is not modelled, and neither is
  the database error (a 500, not a 404) for a malformed one.
- Reading timestamps from JSON text, time zones and the `TaskResponse` re-validation of the response are not
  modelled. Neither a create nor an update body read from the client's JSON may carry `due_date`.
- PostgreSQL's rule that a VARCHAR(n) value too long only by trailing spaces is truncated rather than refused.
  The model refuses every over-long value.
- Api.ListTasks: when two rows share the same `created_at`, their order is left open by the database. The model
  breaks the tie by the larger id, which is one order the query may return. The contracts of `Api.ListTasks`,
  `Api.TasksByAssignee` and `Api.Listing` state only what holds for every order: each row once and `created_at`
  non-increasing.
- Api.ByAssigneeIsFilteredList: it states that two separately issued queries return equal sequences. That
  equality rests on the model's larger-id tie-break. The database may order rows with equal `created_at`
  differently in the two queries; then only the same rows, each once, is promised.
- Cli.ListParamsSameListing: the same holds here. The two listings are equal sequences under the model's
  tie-break, and otherwise hold the same rows.
- Models.Flush: PostgreSQL refuses a string containing the NUL character (U+0000) in a `VARCHAR` or `TEXT`
  column, and the commit then fails with a 500. The model writes such a string. It checks only the NOT NULL
  columns and the length bounds.
- Api.Patched: for the same reason, an update whose new text contains NUL is written by the model, where the
  source answers 500.
- Api.TaskTable.Create: a create body whose text contains NUL passes validation and is stored by the model,
  where the source's commit fails with a 500.
- Api.TaskTable.Update: the same as `Api.Patched`, which it writes.
- Transaction isolation and concurrent requests: each handler is one atomic step on the table.
- The dictionary order of `by_status`, `by_assignee`, `kwargs` and the JSON bodies: they are maps here.
- The client's HTTP calls, its status-code handling and all printing. `Cli.Run` ends with the request it would
  send, or with the exit status.
- `created_at == updated_at` at creation is not claimed: the two values come from two clock readings.
