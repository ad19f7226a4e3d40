# taskmaster: validation, storage and routing core in Dafny

taskmaster is a small task manager. It is a Bun/Hono server with HTMX pages and one SQLite table of tasks. This project models its logic:

- **Validators.** `CreateTaskValidator`, `UpdateTaskValidator`, `BaseValidator` and `VALID_STATUSES`. The four rule methods push onto, or filter, a mutable `errors` list.
- **Repositories.** Both generations of `TaskRepository` run create/update/delete inside a transaction against the `tasks` table. The table has a status CHECK constraint and an AUTOINCREMENT id.
- **Connection.** `DbContext` is the shared connection. It has a lazily created singleton, BEGIN/COMMIT/ROLLBACK, and a `transaction` wrapper.
- **Container.** `Container` is the dependency registry the routes draw their repository from.
- **Routes.** Both generations of `TaskRoute` and `FormRoute` choose the alert, the task or form shown, and the `HX-Trigger` header.

Mutable source objects are Dafny classes. Their methods carry `modifies` clauses and state the new state.

The SQL engine is modelled as functions from database to database, in `TaskStore`. These cover the statements the repositories run: CREATE TABLE IF NOT EXISTS, INSERT, UPDATE … WHERE id, DELETE … WHERE id, the two SELECTs and `last_insert_rowid()`. A thrown error is a `Failure`.

Files, by layer:

- `wrappers.dfy`: `Option`, `Result`, `Outcome`.
- `js.dfy`: the JavaScript built-ins the code relies on. These are `String.prototype.trim`, number-to-string in template literals (including `NaN`), and `Array.prototype.join`.
- `validation_model.dfy`, `validation_rules.dfy`, `base_validator.dfy`, `create_task_validator.dfy`, `update_task_validator.dfy`: the validators.
- `task_store.dfy`, `db_context.dfy`, `task_repository.dfy`, `legacy_task_repository.dfy`: the storage layer.
- `container.dfy`: the registry.
- `responses.dfy`, `task_routes.dfy`, `flat_task_routes.dfy`, `form_routes.dfy`, `flat_form_routes.dfy`: the routes.

## Model

| member | source | states |
|---|---|---|
| Js.ToString | src/routes/task/task-route.ts:88 | a parsed id prints as "NaN" exactly when it is NaN, otherwise as its decimal digits with a leading "-" when negative |
| Js.NatToStringRoundTrip | src/routes/task/task-route.ts:98 | the decimal text of an id reads back as that id, so distinct ids give distinct messages |
| Js.Trim | src/validation/create-task-validator.ts:30-37 | `trim()` gives the empty string iff the string is all whitespace, otherwise text starting and ending with a non-whitespace character; it leaves an unpadded string unchanged |
| Js.TrimRemovesEnds | src/validation/create-task-validator.ts:30-37 | `trim()` returns the string with exactly its leading and its trailing ECMAScript whitespace cut off: a contiguous slice with only whitespace before and after it |
| ValidationModel.ParseStatus | src/validation/model.ts:11 | a string names a member of the `TaskStatus` union exactly when parsing it yields that member |
| ValidationModel.ParseName | src/validation/model.ts:11 | every status's name parses back to that status |
| ValidationModel.ValidStatusesAreTheUnion | src/validation/model.ts:11-13 | membership in `VALID_STATUSES` coincides with the `TaskStatus` union |
| ValidationModel.ValidStatusesDistinct | src/validation/model.ts:13 | `VALID_STATUSES` has three pairwise-distinct entries whose set is {overdue, in-progress, completed} |
| ValidationModel.PendingIsNotValid | src/validation/model.ts:13 | "pending" is rejected by both validators |
| ValidationRules.TitleMessage | src/validation/create-task-validator.ts:29-45 | "Title is required" iff the title is all whitespace; "too long" iff trimmed length > 255; "at least 3" iff trimmed length is 1 or 2; no error iff trimmed length is 3..255 |
| ValidationRules.DescriptionMessage | src/validation/create-task-validator.ts:47-58 | an error iff a description is present and its untrimmed length exceeds 1000; an absent or empty one never errors |
| ValidationRules.CreateDueDateMessage | src/validation/create-task-validator.ts:60-73 | exactly one of: empty gives "required"; unparseable gives "Invalid date format"; parsed before now gives "in the past"; otherwise no error |
| ValidationRules.UpdateDueDateMessage | src/validation/update-task-validator.ts:60-68 | only "required" or "Invalid date format" are possible; any parseable date passes |
| ValidationRules.StatusMessage | src/validation/create-task-validator.ts:75-81 | "Invalid task status" iff the status is not in `VALID_STATUSES` |
| ValidationRules.WithoutAbsentField | src/validation/create-task-validator.ts:43 | the `filter` of a passing branch removes nothing when no error names the field |
| ValidationRules.RunRulesFromEmpty | src/validation/create-task-validator.ts:22-27 | the four rule methods run from the empty list give one error per failing rule in rule order, every `filter` removing nothing |
| ValidationRules.CreateValidateFromEmpty | src/validation/create-task-validator.ts:18-27 | `validate` run from the fresh empty list yields exactly `CreateErrors` |
| ValidationRules.UpdateValidateFromEmpty | src/validation/update-task-validator.ts:18-27 | `validate` run from the fresh empty list yields exactly `UpdateErrors` |
| ValidationRules.ReportInRuleOrder | src/validation/create-task-validator.ts:22-27 | a report lists its errors in rule order, each about a checked field |
| ValidationRules.CreateErrorsInRuleOrder | src/validation/create-task-validator.ts:22-27 | create errors are ordered title, description, dueDate, status, at most one per field |
| ValidationRules.UpdateErrorsInRuleOrder | src/validation/update-task-validator.ts:22-27 | update errors are ordered title, description, dueDate, status, at most one per field |
| ValidationRules.CreateValidIff | src/validation/create-task-validator.ts:29-81 | a create request has no errors iff trimmed title 3..255, description ≤ 1000, due date present, parseable and not past, status valid |
| ValidationRules.UpdateValidIff | src/validation/update-task-validator.ts:29-76 | an update request has no errors iff the same holds with the due date only required to parse |
| ValidationRules.TitleLengthBoundary | src/validation/create-task-validator.ts:30-41 | 255 characters pass, 256 are too long, "ab" is too short, "   " is required |
| ValidationRules.AllInvalidRequest | src/validation/create-task-validator.ts:22-81 | a request failing every rule (blank title, description over 1000 characters, unparseable date, unknown status) yields exactly four errors, one per rule, in order with their exact messages |
| ValidationRules.UpdateIsCreateWithoutPast | src/validation/update-task-validator.ts:60-68 | for the same input, update errors equal create errors with the "in the past" error removed |
| ValidationRules.PastDueDateOnlyFailsCreate | src/validation/create-task-validator.ts:65-69 | a parseable past due date fails create validation and passes update validation |
| BaseValidators.BaseValidator.constructor | src/validation/base-validator.ts:6-8 | a new validator has an empty error list |
| BaseValidators.BaseValidator.IsValid | src/validation/base-validator.ts:10-12 | `isValid` is true exactly when the list is empty, and reads it without changing it |
| CreateTaskValidators.CreateTaskValidator.constructor | src/validation/create-task-validator.ts:12-20 | construction stores the fields and leaves exactly `CreateErrors` of them in `errors` |
| CreateTaskValidators.CreateTaskValidator.Create | src/validation/create-task-validator.ts:83-90 | `create` yields the same errors as direct construction |
| CreateTaskValidators.CreateTaskValidator.Validate | src/validation/create-task-validator.ts:22-27 | the four rules run in order on the current list, none skipped |
| CreateTaskValidators.CreateTaskValidator.ValidateTitle | src/validation/create-task-validator.ts:29-45 | pushes the title error, or filters title errors out when the title passes |
| CreateTaskValidators.CreateTaskValidator.ValidateDescription | src/validation/create-task-validator.ts:47-58 | pushes the description error, or filters description errors out |
| CreateTaskValidators.CreateTaskValidator.ValidateDueDate | src/validation/create-task-validator.ts:60-73 | pushes the due-date error (required, invalid, past), or filters dueDate errors out |
| CreateTaskValidators.CreateTaskValidator.ValidateStatus | src/validation/create-task-validator.ts:75-81 | pushes the status error, or filters status errors out |
| UpdateTaskValidators.UpdateTaskValidator.constructor | src/validation/update-task-validator.ts:12-20 | construction leaves exactly `UpdateErrors` of the fields in `errors` |
| UpdateTaskValidators.UpdateTaskValidator.Validate | src/validation/update-task-validator.ts:22-27 | the four rules run in order on the current list, none skipped |
| UpdateTaskValidators.UpdateTaskValidator.ValidateTitle | src/validation/update-task-validator.ts:29-45 | the same title rule as the create validator |
| UpdateTaskValidators.UpdateTaskValidator.ValidateDescription | src/validation/update-task-validator.ts:47-58 | pushes the description error, or filters description errors out |
| UpdateTaskValidators.UpdateTaskValidator.ValidateDueDate | src/validation/update-task-validator.ts:60-68 | pushes "required" or "invalid", never "in the past", or filters dueDate errors out |
| UpdateTaskValidators.UpdateTaskValidator.ValidateStatus | src/validation/update-task-validator.ts:70-76 | pushes the status error, or filters status errors out |
| TaskStore.StoredDescription | src/database/repositories/task-repository.ts:40 | `description \|\| null`: stored as NULL exactly when absent or empty, otherwise unchanged |
| TaskStore.First | src/database/context/context.ts:40-46 | `statement.get()` is null exactly when there is no row, otherwise the first row |
| TaskStore.CreateTable | src/database/repositories/task-repository.ts:21-31 | IF NOT EXISTS: an existing table, with its own CHECK set, is kept; otherwise an empty table with the given CHECK set and counter 0 |
| TaskStore.SelectById | src/database/repositories/task-repository.ts:55-60 | the row with that id, or no row; NaN matches nothing |
| TaskStore.IdsUpToSpec | src/database/repositories/task-repository.ts:62-64 | lists every present id up to the bound, only those, strictly increasing |
| TaskStore.InsertSpec | src/database/repositories/task-repository.ts:21-44 | an INSERT fails iff the table is missing or the CHECK refuses the status; otherwise it adds exactly one row under a fresh positive id, sets `last_insert_rowid`, and keeps the table invariant |
| TaskStore.UpdateWherePreserves | src/database/repositories/task-repository.ts:73-87 | an UPDATE keeps the table invariant (ids, keys, CHECK) |
| TaskStore.SelectAllSpec | src/database/repositories/task-repository.ts:62-64 | SELECT * yields every row once, nothing else, in increasing id order; its size is the number of rows |
| DbContexts.DbContext.constructor | src/database/context/context.ts:12-14 | opening a file: the connection sees its contents, with no transaction open |
| DbContexts.DbContext.BeginTransaction | src/database/context/context.ts:84-86 | opens a transaction that remembers the current tables; inside an open one it throws and changes nothing |
| DbContexts.DbContext.CommitTransaction | src/database/context/context.ts:91-93 | keeps what the transaction wrote and closes it; with none open it throws |
| DbContexts.DbContext.RollbackTransaction | src/database/context/context.ts:98-100 | restores the tables BEGIN saw, keeping `last_insert_rowid`; with none open it throws |
| DbContexts.DbContext.Execute | src/database/context/context.ts:62-64 | applies a statement; one that throws changes nothing and its error is returned |
| DbContexts.DbContext.QueryOne | src/database/context/context.ts:40-46 | null exactly when the query yields no row, otherwise its first row; a failing query throws |
| DbContexts.DbContext.GetLastInsertedId | src/database/context/context.ts:51-57 | the connection's `last_insert_rowid` |
| DbContexts.LastInsertedId | src/database/context/context.ts:51-57 | the lookup always finds its one row, so the result is never null |
| DbContexts.DbContext.Transaction | src/database/context/context.ts:69-79 | callback completes: its result is returned and its writes kept. Callback throws: rolled back to the prior state and the same error rethrown. Called inside an open transaction: BEGIN throws, the catch rolls back the outer transaction and rethrows. No transaction stays open |
| DbContexts.DbContextStatics.GetInstance | src/database/context/context.ts:19-24 | the first call opens the given path (else `DB_CONFIG.path`); later calls return the same context and ignore the path |
| DbContexts.FirstPathWins | src/database/context/context.ts:19-24 | two `getInstance` calls with different paths return one context, opened on the first path |
| TaskRepositories.ReadRow | src/database/repositories/task-repository.ts:55-60 | `read` on a database: the row with that id, or null (always null for NaN); throws only without a table |
| TaskRepositories.ValidStatusesAreStorable | src/database/repositories/task-repository.ts:27 | the validators accept exactly the statuses this table's CHECK admits |
| TaskRepositories.CreateWorkSpec | src/database/repositories/task-repository.ts:33-53 | the create callback inserts under a fresh positive id and returns that row as stored (never null), or throws on a refused status; the table invariant is kept |
| TaskRepositories.UpdateWorkSpec | src/database/repositories/task-repository.ts:66-91 | absent id or NaN: null, no write. Present id: that row alone is rewritten and returned as stored. Refused status: throws |
| TaskRepositories.DeleteWorkSpec | src/database/repositories/task-repository.ts:93-104 | the callback returns true exactly when a row had the id, removing that row only |
| TaskRepositories.CreateThenRead | src/database/repositories/task-repository.ts:46-51 | reading back the created id returns the task `create` returned |
| TaskRepositories.DeleteTwice | src/database/repositories/task-repository.ts:93-104 | a second delete of the same id returns false and changes nothing |
| TaskRepositories.CreateIntoEmptyTable | src/database/repositories/task-repository.ts:33-64 | on a fresh table, `create` yields id 1 and `readAll` then returns exactly that task |
| TaskRepositories.TaskRepository.constructor | src/database/repositories/task-repository.ts:13-31 | takes the shared context (the first opened wins) and creates the table if absent; the repository is then valid |
| TaskRepositories.TaskRepository.InitDb | src/database/repositories/task-repository.ts:17-19 | initialisation is exactly the table creation; no transaction is opened or closed |
| TaskRepositories.TaskRepository.CreateTable | src/database/repositories/task-repository.ts:21-31 | CREATE TABLE IF NOT EXISTS with {completed, in-progress, overdue} |
| TaskRepositories.TaskRepository.Create | src/database/repositories/task-repository.ts:33-53 | allowed status: the fresh next id, not present before, maps to the input as stored, which is returned; other rows unchanged. Refused status: throws, table unchanged |
| TaskRepositories.TaskRepository.Read | src/database/repositories/task-repository.ts:55-60 | the task with that id, or null exactly when none has it |
| TaskRepositories.TaskRepository.ReadAll | src/database/repositories/task-repository.ts:62-64 | every stored task once and nothing else, in id order; its length is the number of tasks |
| TaskRepositories.TaskRepository.Update | src/database/repositories/task-repository.ts:66-91 | absent id: null, no change. Present id with allowed status: only that row is overwritten, id kept, new row returned. Refused status: throws, no change |
| TaskRepositories.TaskRepository.Delete | src/database/repositories/task-repository.ts:93-104 | returns true exactly when the id was present; removes exactly that row |
| LegacyTaskRepositories.LegacyCreateAgrees | src/database/repositories/task.repository.ts:25-50 | the inline `last_insert_rowid` lookup behaves as `getLastInsertedId`: both create callbacks agree on every database |
| LegacyTaskRepositories.StatusSetsDiffer | src/database/repositories/task.repository.ts:19 | the legacy CHECK admits "pending" instead of "overdue" |
| LegacyTaskRepositories.LegacyStatusesDisagreeWithValidators | src/database/repositories/task.repository.ts:19 | the legacy table refuses "overdue", which the validators accept, and admits "pending", which they refuse |
| LegacyTaskRepositories.TaskRepository.constructor | src/database/repositories/task.repository.ts:5-23 | shared context, table created with the "pending" CHECK set if absent |
| LegacyTaskRepositories.TaskRepository.InitDb | src/database/repositories/task.repository.ts:9-11 | initialisation is exactly the table creation |
| LegacyTaskRepositories.TaskRepository.CreateTable | src/database/repositories/task.repository.ts:13-23 | CREATE TABLE IF NOT EXISTS with {completed, in-progress, pending}; an existing table is kept |
| LegacyTaskRepositories.TaskRepository.Create | src/database/repositories/task.repository.ts:25-50 | same outcome as the current `create`, judged against the legacy CHECK set |
| LegacyTaskRepositories.TaskRepository.Read | src/database/repositories/task.repository.ts:52-57 | the task with that id, or null |
| LegacyTaskRepositories.TaskRepository.ReadAll | src/database/repositories/task.repository.ts:59-63 | every stored task once, in id order |
| LegacyTaskRepositories.TaskRepository.Update | src/database/repositories/task.repository.ts:65-93 | absent id: null, no write. Present id: all four columns overwritten (empty description stored as null) and the row returned |
| LegacyTaskRepositories.TaskRepository.Delete | src/database/repositories/task.repository.ts:95-112 | false for an absent id; otherwise removes only that row and returns true |
| Containers.OverriddenKeys | src/routes/container.ts:73-78 | after the overrides, a key is registered iff it was a default or some mock names it |
| Containers.OverriddenLastWins | src/routes/container.ts:76-78 | the last mock given for a key decides its value |
| Containers.OverriddenUntouched | src/routes/container.ts:73-78 | a default no mock names keeps its value |
| Containers.Container.constructor | src/routes/container.ts:11-13 | a new container has exactly "taskRepository" registered, bound to a new repository on the shared context; the shared database only gains the tasks table if it lacked it (stored tasks are kept) |
| Containers.Container.RegisterDependencies | src/routes/container.ts:28-31 | (re)binds only "taskRepository", to a new repository on the same shared context, whose database only gains the tasks table if it lacked it |
| Containers.Container.Get | src/routes/container.ts:36-41 | the bound value exactly when the key is registered, else the error "Dependency '<key>' not found" |
| Containers.Container.Set | src/routes/container.ts:46-48 | binds the key to the value; every other binding is unchanged |
| Containers.Container.GetDependencies | src/routes/container.ts:53-57 | `taskRepository` is what `get("taskRepository")` returns, and fails as it does |
| Containers.Container.Reset | src/routes/container.ts:62-65 | drops every override; afterwards exactly "taskRepository" is bound, to a new repository sharing the original's context; a database that already has the tasks table is left exactly as it was |
| Containers.CreateTestContainer | src/routes/container.ts:70-81 | a new, independent container: its registry is the defaults overridden by the mocks, in order; the shared database only gains the tasks table if it lacked it |
| Containers.ContainerStatics.GetInstance | src/routes/container.ts:18-23 | the first call builds the container (the shared database only gains the tasks table if it lacked it); every later call returns that same container and leaves the shared database unchanged |
| Responses.Field | src/routes/task/task-route.ts:208-211 | a submitted field's value, or "" when it is missing |
| Responses.CreatedAlert | src/routes/task/task-route.ts:60-70 | success "Task Created" naming the title iff a task came back, else danger "Failed to create task" |
| Responses.UpdatedAlert | src/routes/task/task-route.ts:166-176 | success "Task Updated" iff a task came back, else danger naming the id |
| Responses.DeletedAlert | src/routes/task/task-route.ts:188-198 | success iff the delete returned true; both messages name the id |
| Responses.ValidationAlert | src/routes/task/task-route.ts:45-51 | an alert iff there are errors, its message the messages joined with ", " |
| Responses.UpdateFormFor | src/routes/form/form-route.ts:43-59 | exactly one of form and alert: the form is the task when it exists, else the "Failed to load task with ID" alert |
| Responses.DeleteFormFor | src/routes/form/form-route.ts:61-77 | exactly one of form and alert: the form carries only the task's id when it exists, else the alert |
| Responses.CardsAppend | src/routes/task/task-route.ts:133 | the `join("")` of cards distributes over concatenating task lists |
| Responses.CardsBase | src/routes/task/task-route.ts:133 | no tasks give no markup; one task gives exactly its card |
| Responses.CardsAreConcatenation | src/routes/task/task-route.ts:133 | the markup is the cards of all but the last task followed by the last task's card: cards in order, no separator |
| TaskRoutes.RoutesAreUnambiguous | src/routes/task/task-route.ts:23-30 | all six handlers are registered once each, and no two share method and path |
| TaskRoutes.GetFormData | src/routes/task/task-route.ts:205-213 | missing fields become "", and the due date is read from "dueDate" |
| TaskRoutes.ValidatedRequest | src/routes/task/task-route.ts:38-43 | `description \|\| undefined`: the validator sees no description exactly when the form's is empty |
| TaskRoutes.EmptyTitleIsCreated | src/routes/task/task-route.ts:38-70 | for any form with an empty title and an allowed status, validation reports an error, yet the task is inserted and "Task Created" is chosen |
| TaskRoutes.EmptyTitleIsUpdated | src/routes/task/task-route.ts:143-176 | for any existing id and any form with an empty title and an allowed status, update validation reports an error, yet the row is overwritten and "Task Updated" is chosen |
| TaskRoutes.TaskRoute.FromContainer | src/routes/task/task-route.ts:18-21 | the route uses the repository registered under "taskRepository", or fails with `get`'s error |
| TaskRoutes.TaskRoute.CreateTask | src/routes/task/task-route.ts:32-75 | `create` is always called once; the response depends only on its result, never on validation; a refused status throws out of the handler |
| TaskRoutes.TaskRoute.CreateTaskValidated | src/routes/task/task-route.ts:38-58 | corrected: errors give the validation alert and no write; a valid form is created and cannot be refused by this generation's CHECK |
| TaskRoutes.TaskRoute.SearchTasks | src/routes/task/task-route.ts:77-108 | an alert, and the `taskSearchFailed` header, iff no task has the id; the alert is always "Not Found", so NaN's validation alert is overwritten |
| TaskRoutes.TaskRoute.GetTaskById | src/routes/task/task-route.ts:110-127 | the task and no alert when found; otherwise no task and "No task found with ID {id}" |
| TaskRoutes.TaskRoute.GetAllTasks | src/routes/task/task-route.ts:129-134 | markup only, no trigger; an empty table gives empty markup (the concatenation of cards is `Responses.CardsAreConcatenation`) |
| TaskRoutes.TaskRoute.UpdateTask | src/routes/task/task-route.ts:136-181 | `update` is always called; the alert depends only on its result; absent id: "Failed to update task with ID {id}" |
| TaskRoutes.TaskRoute.UpdateTaskValidated | src/routes/task/task-route.ts:143-164 | corrected: errors give the validation alert and no write; otherwise the `update` outcome |
| TaskRoutes.TaskRoute.DeleteTask | src/routes/task/task-route.ts:183-203 | `taskDeleted` header always; success alert iff the id was present; exactly that row removed |
| FlatTaskRoutes.RoutesLackSearch | src/routes/task-route.ts:22-28 | the flat routes are the newer ones without /search |
| FlatTaskRoutes.GetFormData | src/routes/task-route.ts:133-141 | missing fields become "", and the due date is read from "due_date" |
| FlatTaskRoutes.DueDateKeysDiffer | src/routes/task-route.ts:139 | a "dueDate" field reaches only the newer generation's form reader |
| FlatTaskRoutes.TaskRoute.CreateTask | src/routes/task-route.ts:30-56 | one `create` call, no validation; success alert iff a task came back |
| FlatTaskRoutes.TaskRoute.GetTaskById | src/routes/task-route.ts:58-74 | alert iff the task is absent, with "Failed to load task with ID {id}"; the task otherwise |
| FlatTaskRoutes.TaskRoute.GetAllTasks | src/routes/task-route.ts:76-80 | markup only, no trigger; an empty table gives empty markup |
| FlatTaskRoutes.TaskRoute.UpdateTask | src/routes/task-route.ts:82-110 | one `update` call, no validation; success alert iff a task came back |
| FlatTaskRoutes.TaskRoute.DeleteTask | src/routes/task-route.ts:112-131 | `taskDeleted` header always; success alert iff the id was present |
| FormRoutes.RoutesAreUnambiguous | src/routes/form/form-route.ts:22-27 | all four form handlers are registered, each under its own path |
| FormRoutes.FormRoute.GetCreateTaskForm | src/routes/form/form-route.ts:29-34 | the create form; reads no repository state |
| FormRoutes.FormRoute.GetSearchTasksForm | src/routes/form/form-route.ts:36-41 | the search form; reads no repository state |
| FormRoutes.FormRoute.GetUpdateTaskForm | src/routes/form/form-route.ts:43-59 | the form iff the task exists, the alert iff it does not; exactly one of the two |
| FormRoutes.FormRoute.GetDeleteTaskForm | src/routes/form/form-route.ts:61-77 | a form carrying only the id iff the task exists, else the alert |
| FlatFormRoutes.CreateFormIsUnrouted | src/routes/form-route.ts:19-26 | `getCreateTaskForm` is defined but not registered; only /update/:id and /delete/:id are routed |
| FlatFormRoutes.FormRoute.GetCreateTaskForm | src/routes/form-route.ts:24-26 | a fixed markup fragment, reading no repository state |
| FlatFormRoutes.FormRoute.GetUpdateTaskForm | src/routes/form-route.ts:28-44 | exactly one of form or alert, according to whether `read(id)` finds the task |
| FlatFormRoutes.FormRoute.GetDeleteTaskForm | src/routes/form-route.ts:46-62 | only `{taskId}` when the task exists, else the alert |

## Left out

- `Date.parse` and the clock. `new Date(dueDate)` and `new Date()` are parameters: the parsed instant (None for NaN) and "now". ECMAScript date grammar is not modelled.
- ValidationRules.TitleMessage: lengths count Unicode characters, not UTF-16 code units. A title with characters outside the Basic Multilingual Plane is measured shorter than JavaScript measures it.
- ValidationRules.DescriptionMessage: the length limit counts characters, not UTF-16 code units, for the same reason.
- `parseInt` of the path or form id is not modelled. Handlers take the parsed number (`Int` or `NaN`).
- Js.Number and Js.ToString: a parsed id is a mathematical integer, whereas JavaScript holds it as a double. The model is exact only for ids of magnitude below 2^53: above that `parseInt` rounds, and the source looks up the rounded value. `${id}` prints the same digits only below 10^21; above that JavaScript uses exponent notation, such as "1e+21".
- Hono, async form parsing and response construction are not modelled, and neither is `console.log`. An error a repository throws leaves the handler as a `Failure`; the HTTP error page it becomes is not modelled.
- JSX components and markup are not modelled. A `Fragment` records which component renders, with its props. The `ReadTask` card is the parameter `card`.
- SQL text, statement preparation and parameter binding are not modelled. Each statement is a function in `TaskStore`. `SELECT *` without ORDER BY is taken to return rows in id order, as SQLite's rowid scan does.
- The content of the database file is a parameter (`stored`). `DB_CONFIG.options`, `inMemoryPath` and `close` are not modelled.
- DbContexts.DbContext.Transaction: the callback is a function that yields its result and final database, or an error alone. So a callback that writes and then throws cannot be represented, and ROLLBACK would not fully undo it: it restores the tables but keeps `last_insert_rowid`. The source's callbacks throw only when the CHECK constraint refuses an INSERT or UPDATE, and a refused statement changes nothing, so the gap does not reach them.
- Dafny has no static fields. `DbContext.instance` and `Container.instance` are the `instance` field of a holder class, which callers pass in.
- TaskRoutes.TaskRoute.FromContainer: requires that a registered "taskRepository" is a real repository. A route built on a test mock is not modelled, because a mock's behaviour is arbitrary.
- FlatTaskRoutes.TaskRoute.constructor, FormRoutes.FormRoute.constructor and FlatFormRoutes.FormRoute.constructor: they take the repository directly. Their container lookup is the one `TaskRoutes.TaskRoute.FromContainer` models.
- src/database/repositories/base.repository.ts, which the legacy repository extends, is not part of this model. The legacy repository is taken to obtain its context the way src/database/repositories/base-repository.ts does (lines 15-19).
- src/routes/container/container.ts, which the newer routes import, is not part of this model. The newer routes are taken to use the container of src/routes/container.ts.
- TaskRoutes.TaskRoute.GetAllTasks and FlatTaskRoutes.TaskRoute.GetAllTasks: the contract states only the empty case. The markup as cards in id order follows from `ReadAll` with `Responses.CardsAreConcatenation`, not from the handler's own contract.
- Route managers, the server, the older module-level handlers (htmx.ts, html.ts) and the browser script are framework wiring or UI; they are not modelled.

## Findings

| source | as written | input that shows it | evidently intended | confidence | as-written member | corrected member |
|---|---|---|---|---|---|---|
| src/routes/task/task-route.ts:45-70 | the validation alert is computed, then overwritten unconditionally; `create` runs on invalid input, and a status outside the CHECK set makes it throw | form with no title, status "completed", dueDate "2030-01-01": validation computes "Title is required", but that alert is overwritten before it is shown; a task with an empty title is stored and "Task Created" is shown | show the validation alert and skip `create` | medium, not executed | TaskRoutes.EmptyTitleIsCreated | TaskRoutes.TaskRoute.CreateTaskValidated |
| src/routes/task/task-route.ts:150-176 | the same in `updateTask`: the validation alert is overwritten and `update` writes invalid input | an existing id with no title in the form: "Title is required" is computed and then overwritten before it is shown; the row's title becomes "" and "Task Updated" is shown | show the validation alert and skip `update` | medium, not executed | TaskRoutes.EmptyTitleIsUpdated | TaskRoutes.TaskRoute.UpdateTaskValidated |
