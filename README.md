# Task Management API — a Dafny model of its task core

The model covers the part of the Task Management API that decides what happens to tasks. That is:

- the `Task` record, with its defaults and length limits;
- the request schemas `TaskCreate` and `TaskUpdate`, with their title and due-date validators, and the response shapes `TaskResponse` and `PaginatedResponse`;
- the task service: create, paginated list, get, partial update and delete;
- the two filter routes, by status and by priority.

The database is modelled as a class `TaskService.TaskStore`. Its fields are:

- `tasks`, a map from id to row;
- `order`, the ids in row order;
- `nextId`, the id the next insert receives.

The store's invariant (`StoreInvariant`) says four things:

- ids are positive and below `nextId`;
- every row carries its own id;
- every stored title is stripped, non-empty and within bounds;
- `order` lists each id once, in ascending order.

Instants are integers. The current time `now` is a parameter of every operation that reads the clock. SQL sorting is modelled by an explicit key order (`SortKeys`): NULL sorts before numbers, numbers before text, and text is compared by code point. The order among enum values is a parameter (`EnumRanks`), because the enum definitions are not part of this model.

Modules, one per file:

| file | module | models |
|---|---|---|
| wrappers.dfy | Wrappers | `Option` and `Result` |
| errors.dfy | Errors | the 404 / 422 / 400 errors |
| text.dfy | Text | Python's `str.strip` and `str.isspace` |
| task_model.dfy | TaskModel | models/Task.py |
| task_schema.dfy | TaskSchema | schemas/TaskSchema.py |
| sort_keys.dfy | SortKeys | the SQL sort-key order |
| task_query.dfy | TaskQuery | the pure listing part of `get_paginated_tasks` |
| task_service.dfy | TaskService | services/task_service.py |
| filter_routes.dfy | FilterRoutes | routes/filter_routes.py |

## Model

| member | source | states |
|---|---|---|
| Errors.Error.StatusCode | utils/exceptions.py:4-13 | NotFound is 404, Validation is 422 and BadRequest is 400, each in both directions |
| Text.Strip | schemas/TaskSchema.py:21 | the result is a contiguous piece of the input with only whitespace cut off on either side; it has no leading or trailing whitespace; it is empty exactly when the input is all whitespace |
| Text.StrippedIsFixpoint | services/task_service.py:15 | stripping a string that has no surrounding whitespace gives it back |
| Text.StripIdempotent | schemas/TaskSchema.py:21 | stripping twice is stripping once, so the service's second strip changes nothing |
| TaskModel.Construct | models/Task.py:9-27 | a new Task has no id and no `updated_at`; `created_at` is the construction time; status defaults to pending and priority to medium; the other fields are as given; it is within bounds exactly when title ≤ 200, description ≤ 1000 and assignee ≤ 100 |
| TaskSchema.CheckLength | schemas/TaskSchema.py:12 | an optional string passes unchanged exactly when it fits its `max_length` |
| TaskSchema.ValidateTitle | schemas/TaskSchema.py:18-24 | succeeds exactly when the title is not all whitespace; the value is the stripped title, non-empty and without surrounding whitespace; otherwise the title-blank Validation error |
| TaskSchema.ValidateOptionalTitle | schemas/TaskSchema.py:45-53 | None passes through; a given title is validated as on create |
| TaskSchema.AsUtc | schemas/TaskSchema.py:30-31 | a naive datetime gets offset 0; an aware one keeps its offset; the wall-clock value is kept |
| TaskSchema.ValidateDueDate | schemas/TaskSchema.py:26-34 | None passes; a given date fails exactly when its instant is before now, so a date equal to now passes; on success the value is the normalised date |
| TaskSchema.ValidateCreate | schemas/TaskSchema.py:10-34 | succeeds exactly when the title is present, at most 200 long and not blank, the description and assignee fit, and any due date is not in the past; the result has the stripped title, status and priority defaulted to pending and medium, the normalised due date, the other fields as sent, and every bound; every failure is a Validation error |
| TaskSchema.UpdateTitle | schemas/TaskSchema.py:38-53 | an unsent or null title passes unchanged; a sent title must be at most 200 long and not blank, and is stored stripped |
| TaskSchema.UpdateLength | schemas/TaskSchema.py:39-43 | an unsent or null field passes; a sent string passes exactly when it fits; the value is unchanged |
| TaskSchema.UpdateDueDate | schemas/TaskSchema.py:55-63 | an unsent or null due date passes unchanged; a sent date fails exactly when it is before now; the result is normalised and stays sent |
| TaskSchema.ValidateUpdate | schemas/TaskSchema.py:37-63 | succeeds exactly when every sent field is valid; which fields were sent is kept; a sent title is stripped; a sent due date is normalised; the other fields are as sent; the result satisfies the update bounds |
| TaskSchema.DumpHead | services/task_service.py:85 | the first three dumped entries are fields the update sets |
| TaskSchema.DumpTail | services/task_service.py:85 | the last three dumped entries are fields the update sets |
| TaskSchema.Dump | services/task_service.py:85 | every entry of `model_dump(exclude_unset=True)` is a field the update sets, with its value, and every set field appears |
| TaskSchema.ToResponse | schemas/TaskSchema.py:65-81 | the response of a stored task carries its id, and reading a task back from the response gives the same task |
| TaskSchema.Responses | services/task_service.py:65 | one response per task, in the same order |
| SortKeys.TextLeReflexive | services/task_service.py:57-59 | text ordering is reflexive |
| SortKeys.TextLeTotal | services/task_service.py:57-59 | any two texts are comparable |
| SortKeys.TextLeTransitive | services/task_service.py:57-59 | text ordering is transitive |
| SortKeys.TextLeAntisymmetric | services/task_service.py:57-59 | two texts ordered both ways are equal |
| SortKeys.KeyLeReflexive | services/task_service.py:57-59 | the column key order is reflexive |
| SortKeys.KeyLeTotal | services/task_service.py:57-59 | the column key order is total, with NULL below every value |
| SortKeys.KeyLeTransitive | services/task_service.py:57-59 | the column key order is transitive |
| TaskQuery.Matches | services/task_service.py:43-51 | with no status, no priority and no (or an empty) assignee every row matches; a match has the given status, the given priority and, for a non-empty assignee filter, that assignee, so a row with no assignee never matches one |
| TaskQuery.Count | services/task_service.py:41-51 | the count is at most the number of rows, and is zero exactly when no row matches |
| TaskQuery.Filter | services/task_service.py:43-51 | the selected rows are rows that match every given filter, and every matching row is selected |
| TaskQuery.CountIsFilterLength | services/task_service.py:41-61 | the count query counts exactly the rows the base query selects |
| TaskQuery.NoFilterSelectsAll | services/task_service.py:43-51 | with no status, no priority and no (or an empty) assignee, every row is selected, in order |
| TaskQuery.FilterIgnoresPaging | services/task_service.py:40-51 | the selection depends only on the three filters |
| TaskQuery.FilterKeepsOrder | services/task_service.py:40-51 | filtering keeps rows in ascending id order |
| TaskQuery.FilterKeepsBound | services/task_service.py:40-51 | filtering keeps a lower bound on the ids |
| TaskQuery.ConsIncreasing | services/task_service.py:40 | a row below an ascending run extends it |
| TaskQuery.ColumnNamed | services/task_service.py:54-55 | `getattr(Task, sort_by, None)` finds the column with that name, or there is none with that name |
| TaskQuery.KeyOf | services/task_service.py:53-59 | a column's sort key is NULL exactly when that nullable column is unset; the title sorts as text; a due date sorts by its stored wall-clock value |
| TaskQuery.PrecedesTotal | services/task_service.py:56-59 | any two rows are ordered one way or the other, ascending or descending |
| TaskQuery.PrecedesTransitive | services/task_service.py:56-59 | the row order is transitive |
| TaskQuery.ChainedIsSorted | services/task_service.py:56-59 | a sequence ordered pair by adjacent pair is ordered pair by pair |
| TaskQuery.Insert | services/task_service.py:56-59 | inserting into an ordered sequence gives an ordered sequence, one longer, with the same elements plus the new one |
| TaskQuery.Sort | services/task_service.py:56-59 | the result is ordered and is a permutation of the input |
| TaskQuery.OrderingOf | services/task_service.py:53-59 | a sort is applied exactly when `sort_by` names a column; it is by that column; it is descending exactly when `sort_order` is "desc" |
| TaskQuery.Arrange | services/task_service.py:53-59 | the rows are permuted and ordered by the requested column when there is one, and left in row order otherwise |
| TaskQuery.Window | services/task_service.py:62 | `offset(skip).limit(limit)` yields min(limit, max(0, n − skip)) rows, the i-th being row skip + i |
| TaskQuery.Pages | services/task_service.py:69 | the page count is 0 exactly when total is 0, and otherwise (pages − 1)·limit < total ≤ pages·limit |
| TaskQuery.PageLength | services/task_service.py:62 | the page has min(limit, max(0, total − skip)) rows |
| TaskQuery.ArrangedFrom | services/task_service.py:53-59 | sorting keeps the length and draws every row from its input |
| TaskQuery.SelectedFrom | services/task_service.py:40-51 | anything the base query selects is a row that matches the filters |
| TaskQuery.PageMembers | services/task_service.py:40-62 | every row on the page is a stored row matching the filters |
| TaskQuery.PageSorted | services/task_service.py:53-62 | with a sort column the page is in that order |
| TaskQuery.WindowSorted | services/task_service.py:62 | a window of an ordered sequence is ordered |
| TaskQuery.ListTasks | services/task_service.py:30-70 | total is the number of matches; limit and offset are echoed back; the page count is the ceiling; the data has the page length and lists matching rows, sorted when a column was named and otherwise the window of the filtered rows in row order |
| TaskQuery.TotalIgnoresPaging | services/task_service.py:41-61 | total does not depend on skip, limit, sort column or sort order |
| TaskQuery.NaturalOrderPage | services/task_service.py:53-62 | with no usable sort column the page is in ascending id order |
| TaskService.Lookup | services/task_service.py:62 | the rows under the given ids, in that order |
| TaskService.Without | services/task_service.py:109 | the row order after a delete holds every other id and not the deleted one |
| TaskService.WithoutKeepsBound | services/task_service.py:109 | a delete keeps a lower bound on the remaining ids |
| TaskService.WithoutKeepsOrder | services/task_service.py:109 | a delete keeps the row order ascending |
| TaskService.SelectionCountsKeys | services/task_service.py:41-61 | over distinct ids, the number of rows selected is the number of matching ids |
| TaskService.AllKeysMatching | services/task_service.py:41-51 | the matching ids listed in row order are the matching ids of the table |
| TaskService.PageIsStored | services/task_service.py:62-65 | every listed response is the response of a stored, matching row under its own id |
| TaskService.SetField | services/task_service.py:95-96 | one `setattr` writes the named field with its value and leaves every other field, the id and both timestamps as they were |
| TaskService.SetAll | services/task_service.py:95-96 | the `setattr` loop applies the dumped fields in turn |
| TaskService.ApplyAllConcat | services/task_service.py:95-96 | applying two runs of fields is applying one run after the other |
| TaskService.ApplyAllStep | services/task_service.py:95-96 | applying one more field is one more `setattr` |
| TaskService.ApplyDumpHead | services/task_service.py:85-96 | the dumped title, description and status fields are written and no others |
| TaskService.ApplyDumpTail | services/task_service.py:85-96 | the dumped priority, due date and assignee fields are written and no others |
| TaskService.DumpAppliesPatch | services/task_service.py:85-96 | the loop over the dump writes exactly the set fields and keeps the others, an explicit null due date clearing it |
| TaskService.PatchKeepsNormalised | services/task_service.py:85-96 | an update that passed the title check leaves the row normalised, with its id and creation time |
| TaskService.CreateTitleSurvivesService | services/task_service.py:15-17 | a title the create schema accepted passes the service's strip and blank check unchanged |
| TaskService.UpdateTitleSurvivesService | services/task_service.py:87-90 | likewise for a title the update schema accepted |
| TaskService.DueDateAtNow | services/task_service.py:18-19 | a due date equal to now passes the schema and is refused by the service |
| TaskService.RowsOfStore | services/task_service.py:40-62 | the rows of the table, in row order, have ascending ids and are stored under their own id |
| TaskService.ListCountsStore | services/task_service.py:41-61 | over the table, total is the number of stored rows that match the filters |
| TaskService.ListDrawsFromStore | services/task_service.py:62-65 | over the table, every listed response is a matching row, as stored under its own id |
| TaskService.ListShowsPage | services/task_service.py:62-65 | over the table, the listed responses are, one by one, the page the query selects from the rows in row order |
| TaskService.ListNaturalOrder | services/task_service.py:53-62 | over the table and with no usable sort column, the listing is in ascending id order |
| TaskService.InsertKeepsInvariant | services/task_service.py:24-26 | inserting a normalised row under the next id keeps the store invariant |
| TaskService.ReplaceKeepsInvariant | services/task_service.py:99-101 | writing back a normalised row under its id keeps the store invariant |
| TaskService.RemoveKeepsInvariant | services/task_service.py:109-110 | removing a row keeps the store invariant |
| TaskService.TaskStore.constructor | db/session.py:8-9 | a freshly created table is empty, its first id is 1, and it satisfies the invariant |
| TaskService.TaskStore.Rows | services/task_service.py:40-62 | the rows in row order, one per id, with ascending ids |
| TaskService.TaskStore.Get | services/task_service.py:73-77 | a present id gives the stored row, which carries that id; an absent id gives NotFound "Task not found" |
| TaskService.TaskStore.Create | services/task_service.py:14-27 | it succeeds exactly when the title is not blank and any due date is after now; a blank title fails first, then a due date not after now; a failure leaves the store unchanged; a success adds exactly one row under a fresh id, with the stripped title, `created_at` now, no `updated_at` and the other fields as supplied; every other row is unchanged; Get then finds the new row |
| TaskService.TaskStore.Update | services/task_service.py:80-102 | it succeeds exactly when the id is present, a sent title is not blank and a sent non-null due date is after now; an absent id gives NotFound whatever the payload; then a sent blank title, then a sent non-null due date not after now; a failure changes nothing; a success replaces only that row, by the patch of the set fields with the title stripped and `updated_at` now |
| TaskService.TaskStore.Delete | services/task_service.py:105-110 | an absent id gives NotFound and changes nothing; a present id removes only that row and its place in the row order; afterwards Get on the id gives NotFound |
| TaskService.TaskStore.List | services/task_service.py:30-70 | total is the number of matching rows in the table; limit and offset are echoed back; the page count is the ceiling; the page length is min(limit, max(0, total − skip)); each item is a matching row as stored under its id; the items are, one by one, the page the query selects from the table's rows; the page is sorted when a column was named, and otherwise it is the window of the filtered rows in row order, ascending by id |
| FilterRoutes.StatusQuery | routes/filter_routes.py:18 | the status route's WHERE clause: a row matches exactly when it has that status |
| FilterRoutes.PriorityQuery | routes/filter_routes.py:26 | the priority route's WHERE clause: a row matches exactly when it has that priority |
| FilterRoutes.FilterByStatus | routes/filter_routes.py:16-21 | NotFound "No tasks found with that status" exactly when no row has the status; otherwise a non-empty list holding every row with that status and nothing else |
| FilterRoutes.FilterByPriority | routes/filter_routes.py:24-29 | NotFound "No tasks found with that priority" exactly when no row has the priority; otherwise a non-empty list holding every row with that priority and nothing else |

Notes on the code as written:

- The service's error messages differ from the schema's. The service says "Title cannot be empty or only whitespace."; the schema says "Title cannot be empty or whitespace only.". Both messages are modelled as written.
- The schema refuses a due date only when it is in the past (strictly before now). The service refuses a due date at or before now. A due date equal to now therefore passes the schema and fails in the service (`TaskService.DueDateAtNow`).
- `max_length` on the title is checked before the validator strips it, so the raw title must be at most 200 characters long.
- The filters use Python truthiness. An enum or datetime value is always truthy. An empty `assigned_to` string is falsy, so it imposes no filter.

## Left out

- Sessions, `commit`, `refresh`, SQL query building and the database engine (db/session.py, main.py) are I/O. The store is the `TaskStore` class, and `session.refresh` is taken to return the row as written.
- The current time is a parameter, and datetimes are integer instants with a UTC offset. The due-date column stores the wall-clock value without its offset, so `ORDER BY due_date` compares wall-clock values (`KeyOf`), while the validators compare instants. Reading a row back is taken to return the due date with the offset it was written with. Calendar arithmetic, microseconds and the `isoformat` encoder are not modelled. The source reads the clock more than once per request: in create for the due-date check and again for `created_at` and the `Task` construction time, and in update for the due-date check and again for `updated_at`. The model takes one `now` for all readings of a request.
- Id assignment is a counter (`nextId`). The database's own choice of rowid is not modelled beyond "fresh and above every existing id".
- A row's natural order, when no sort column is named, is taken as ascending id.
- The enum definitions and the database's order among enum values are not part of this model. They are the parameter `EnumRanks`.
- `getattr(Task, sort_by)` on a name that is an attribute but not a column (`metadata` or a method, say) is not modelled. In the source, `.asc()` or `.desc()` on such an attribute raises AttributeError and the request fails. The model treats the name as no column and returns the rows in natural order.
- TaskService.TaskStore.List, TaskQuery.ListTasks: with a sort column, rows with equal keys come in row order (lowest id first), because `TaskQuery.Sort` is a stable insertion sort. The database does not promise that tie order, so with ties it may put different rows on a page than these contracts name. `TaskQuery.Sort` and `TaskQuery.Arrange` themselves state only order and permutation.
- TaskService.TaskStore.Update: for a present id, an explicit null title, status or priority is excluded by its precondition `id in tasks ==> NoNullInRequired(u)`; an absent id gives NotFound whatever the payload. In the source a null title crashes on `.strip()`, and a null status or priority violates a NOT NULL column.
- TaskSchema.ValidateCreate, TaskSchema.ValidateUpdate: when several fields are invalid, Pydantic reports all of them. The model reports the first, in field order.
- Request parsing of enum values and datetimes from JSON is not modelled: requests arrive as typed values.
- The route-level constraints of routes/task_routes.py (skip ≥ 0, limit ≥ 1) are preconditions of `List`. The `sort_order` pattern is not needed, because any value other than "desc" sorts ascending.
- routes/general.py (a welcome message and a raw-SQL health check) and the FastAPI routing in routes/task_routes.py are not part of this model.
- The BadRequest error kind is declared, as in utils/exceptions.py, but no modelled operation raises it.
- The create input's title is reassigned in place by the service. The model treats the input as a value and does not capture that side effect.
- The filter routes take the table's rows in row order (`TaskStore.Rows()`) as their argument.
