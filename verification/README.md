# Task management core, modelled in Dafny

This project models the task-management core of a small to-do web application:

- the client-side **task cache** (`TaskManager`), a single record of state holding an initialized flag, the ordered task snapshot and the ordered listener registrations;
- the **gateway** (`TaskAdapter`) between the client's camelCase task record and the server's snake_case wire shape;
- the server's **task handlers** (`taskController`) and **interviewee handlers** (`intervieweeController`), as pure functions from a store and a request to a status, a JSON payload and the new store;
- the small pieces of logic in the view components:
  - the checklist card's item editing;
  - the save guards of the three task cards;
  - the add-task form's acceptance rule;
  - the due-date reminder badge;
  - the salary split of the employee page.

Everything is immutable data and total functions.

- A cache operation returns an `Outcome`. It holds the new cache state, the requests the gateway sent and the listener calls made.
- The server's answer to a gateway request is a parameter of the operation: `Ok(payload)` or `Fail`.
- The database is a `Store`. It holds a `tasks` map keyed by id and a `checklist_items` table kept in insertion order. Ids come from counters.
- "Now", the creation time and client-generated ids are parameters.

Task kinds are the closed datatype `Basic | Timed | Checklist`.

Files, one module each unless noted:

- `wrappers.dfy`: `Option`.
- `seqs.dfy`: the order-preserving `Filter` and its lemmas.
- `text.dfy`: `trim`, ASCII lower-casing, `includes`, and JavaScript falsiness of optional strings.
- `tasks.dfy`: the client task record, with its three-state due date.
- `wire.dfy`: the wire/store record.
- `task_adapter.dfy`: the gateway.
- `task_manager.dfy`: the cache.
- `task_decorator.dfy`: the reminder badge and the shared overdue test.
- `task_cards.dfy`: modules `TaskCard`, `BasicTaskCard`, `TimedTaskCard` and `ChecklistTaskCard`.
- `midterm.dfy`: the add-task form.
- `employees.dfy`: the employee page.
- `task_controller.dfy`: the task handlers.
- `interviewee_controller.dfy`: the interviewee handlers.
- `exchange.dfy`: how the server reads the bodies the gateway sends, and what a fetch of the server's listing yields.

Notes on the code:

- A failed initial fetch initializes the cache with an empty list. The gateway's `fetchTasks` turns every failure into `[]`, so `initialize` installs an empty snapshot, marks the cache initialized, notifies, and never retries.
- There is no "initializing" state.
- The cache's snapshot values are immutable here, so `getTasks` returning a copy and returning the snapshot cannot be told apart.
- A client due date has three states: undefined, `null` and a date. A task read from the server carries `null` when it has no date. The timed card forwards an emptied date field as undefined, and `JSON.stringify` leaves an undefined `due_date` out of the body. `updateTask` keeps the stored date for an undefined field, so clearing a timed task's date does not clear it on the server, while a `null` does (`Exchange.ClearedDateKeepsStoredDate`, `Exchange.NullDateClearsStoredDate`).

## Model

| member | source | states |
|---|---|---|
| Text.TrimEmptyIffBlank | frontend/src/components/tasks/BasicTask.tsx:25 | `s.trim()` is empty exactly when every character of `s` is whitespace, so the save guards reject exactly the blank titles |
| Text.Contains | frontend/src/patterns/TaskManager.ts:97 | `includes` holds exactly when the query occurs at some position of the string |
| Tasks.ParseKind | backend/src/controllers/taskController.ts:93-95 | only "basic", "timed" and "checklist" are kinds, and each is read back to the kind carrying that name |
| TaskAdapter.ToInternalTask | frontend/src/patterns/TaskAdapter.ts:149-163 | id, title, type and completed are copied; `created_at` becomes `createdAt` and `due_date` becomes `dueDate`; absent items stay absent; present items map element-wise, keeping length, order, id, text and completed |
| TaskAdapter.BodyIgnoresIdAndCreatedAt | frontend/src/patterns/TaskAdapter.ts:25-31 | the outbound create/update body never depends on the task's id or creation time |
| TaskAdapter.ReadDueDate | frontend/src/patterns/TaskAdapter.ts:156 | a `due_date` read from the server is `null` or a date, never undefined |
| TaskAdapter.RoundTrip | frontend/src/patterns/TaskAdapter.ts:56-62 | the outbound body written in wire field names, with an id and creation time added, reads back as the same task, except that an undefined due date reads back as `null` |
| TaskAdapter.FetchAppend | frontend/src/patterns/TaskAdapter.ts:15 | converting a concatenated answer gives the concatenated results, so the fetch keeps response order and drops nothing |
| TaskAdapter.FetchTasks | frontend/src/patterns/TaskAdapter.ts:6-21 | one GET of the collection; `[]` on any failure, otherwise the converted records in response order |
| TaskAdapter.CreateTask | frontend/src/patterns/TaskAdapter.ts:23-52 | POSTs the outbound body; returns the converted record exactly when the response is ok, otherwise `None`, never an error |
| TaskAdapter.UpdateTask | frontend/src/patterns/TaskAdapter.ts:54-83 | PUTs the outbound body to the task's own path, its due date kept as undefined, `null` or a date; the converted record exactly when ok, otherwise `None` |
| TaskAdapter.DeleteTask | frontend/src/patterns/TaskAdapter.ts:85-103 | DELETE of the task's path; true exactly when the response is ok |
| TaskAdapter.ToggleTaskCompletion | frontend/src/patterns/TaskAdapter.ts:105-125 | PATCH of the toggle path with no body; the converted record exactly when ok, otherwise `None` |
| TaskAdapter.ToggleSubtaskCompletion | frontend/src/patterns/TaskAdapter.ts:127-147 | PATCH of the subtask toggle path; the converted parent record exactly when ok, otherwise `None` |
| TaskManager.Initialize | frontend/src/patterns/TaskManager.ts:23-34 | on an uninitialized cache it sends one fetch, installs exactly the fetched list, marks the cache initialized and notifies every listener; on an initialized cache it sends nothing and changes nothing |
| TaskManager.InitializeFetchesOnce | frontend/src/patterns/TaskManager.ts:24 | two `initialize` calls in a row send exactly one request between them, and the second changes nothing |
| TaskManager.FailedFetchInitializesEmpty | frontend/src/patterns/TaskManager.ts:26-30 | a failed fetch still initializes the cache, with an empty snapshot, and a later `initialize` does not retry |
| TaskManager.AddTask | frontend/src/patterns/TaskManager.ts:36-46 | on an ok response the created record is appended after the earlier entries, which keep their order, and every listener is notified; on a failure nothing changes and nobody is notified |
| TaskManager.AddKeepsIdsUnique | frontend/src/patterns/TaskManager.ts:40 | appending a record whose id is new keeps the snapshot's ids unique |
| TaskManager.AddAll | frontend/src/patterns/TaskManager.ts:38-42 | a run of `addTask` calls extends the snapshot by exactly one entry per ok response, in call order, and keeps ids unique when the server's ids are fresh |
| TaskManager.RemoveTask | frontend/src/patterns/TaskManager.ts:48-58 | on success the snapshot is exactly the entries with other ids, each once, in their old order, and listeners are notified; on failure nothing changes |
| TaskManager.RemoveKeepsIdsUnique | frontend/src/patterns/TaskManager.ts:52 | removal keeps the snapshot's ids unique |
| TaskManager.RemoveAbsentIdKeepsSnapshot | frontend/src/patterns/TaskManager.ts:50-54 | removing an id that no entry carries leaves the snapshot as it was |
| TaskManager.UpdateTask | frontend/src/patterns/TaskManager.ts:60-70 | on success the entries with the submitted task's id become the returned record; on failure nothing changes and nobody is notified |
| TaskManager.ReplaceById | frontend/src/patterns/TaskManager.ts:64 | the length is kept; entries with the id become the new record and all others are unchanged |
| TaskManager.ReplaceKeepsIds | frontend/src/patterns/TaskManager.ts:76 | replacing by id with the record of that same id keeps the list of ids, and so their uniqueness |
| TaskManager.ReplaceKeepsOthers | frontend/src/patterns/TaskManager.ts:88 | an entry with another id is left exactly where it was |
| TaskManager.ToggleTaskCompletion | frontend/src/patterns/TaskManager.ts:72-82 | on success only the entries with that id are replaced, by the server's record; on failure nothing changes |
| TaskManager.ToggleSubtaskCompletion | frontend/src/patterns/TaskManager.ts:84-94 | on success only the entries with the parent's id are replaced, by the returned parent; on failure nothing changes |
| TaskManager.SearchTasks | frontend/src/patterns/TaskManager.ts:96-98 | the result is exactly the snapshot entries whose lowered title contains the lowered query, each once, in snapshot order |
| TaskManager.SearchEmptyQuery | frontend/src/patterns/TaskManager.ts:97 | the empty query returns the whole snapshot |
| TaskManager.SearchIgnoresQueryCase | frontend/src/patterns/TaskManager.ts:96 | lower-casing the query does not change the result |
| TaskManager.GetTasks | frontend/src/patterns/TaskManager.ts:100-102 | a copy of the snapshot: same length, same entries, same order |
| TaskManager.Subscribe | frontend/src/patterns/TaskManager.ts:104-105 | adds one registration at the end and changes nothing else |
| TaskManager.Unsubscribe | frontend/src/patterns/TaskManager.ts:107-109 | the registrations become exactly the other listeners' registrations, each once, in their old order |
| TaskManager.SubscribeThenUnsubscribe | frontend/src/patterns/TaskManager.ts:104-110 | subscribing a new listener and then unsubscribing it restores the registrations |
| TaskManager.Deliver | frontend/src/patterns/TaskManager.ts:113 | one call per registration, in registration order, each with the snapshot |
| TaskManager.UnsubscribeSilencesOnlyThatListener | frontend/src/patterns/TaskManager.ts:112-114 | a notification made after unsubscribing is the earlier one less the calls to that listener, so it is not called in later notifications and the others keep their order |
| TaskDecorator.ReminderFor | frontend/src/components/TaskDecorator.tsx:10-35 | no badge without a due date or on a completed task; otherwise a badge reading "Overdue" exactly when the due date is before now, else "Due", with the destructive colour exactly when it reads "Overdue" |
| TaskDecorator.CardAndBadgeAgree | frontend/src/components/tasks/TimedTask.tsx:35 | the cards' overdue test (the same at BasicTask.tsx:31 and ChecklistTask.tsx:67) holds exactly when the badge reads "Overdue" |
| BasicTaskCard.HandleSave | frontend/src/components/tasks/BasicTask.tsx:24-29 | a blank title forwards nothing and stays editing; otherwise the task goes out with only its title replaced and edit mode ends |
| BasicTaskCard.SaveLeavesEditOnlyOnSuccess | frontend/src/components/tasks/BasicTask.tsx:27 | edit mode ends exactly when a task was forwarded, and that task differs only in its title |
| TimedTaskCard.FieldOf | frontend/src/components/tasks/TimedTask.tsx:22 | the date field starts with the task's date, and empty for an undefined or `null` one |
| TimedTaskCard.ForwardedDueDate | frontend/src/components/tasks/TimedTask.tsx:29 | an empty field is forwarded as an undefined due date, never `null`; a date as that date |
| TimedTaskCard.HandleSave | frontend/src/components/tasks/TimedTask.tsx:24-33 | a blank title forwards nothing and stays editing; otherwise only title and due date are replaced, an empty date field giving an undefined due date |
| TimedTaskCard.SaveWithoutDateEditKeepsDueDate | frontend/src/components/tasks/TimedTask.tsx:22-29 | saving a new title without touching the date forwards the task's date when it has one and an undefined one otherwise, every other field unchanged |
| TimedTaskCard.ClearedDateSavesNoDueDate | frontend/src/components/tasks/TimedTask.tsx:29 | an emptied date field forwards the task with an undefined due date |
| ChecklistTaskCard.HandleSave | frontend/src/components/tasks/ChecklistTask.tsx:25-34 | a blank title does nothing; otherwise the task goes out with title and items replaced and every other field kept |
| ChecklistTaskCard.SaveWithoutEditsSendsEmptyItems | frontend/src/components/tasks/ChecklistTask.tsx:22 | saving a task that had no item list, without editing items, sends `[]` |
| ChecklistTaskCard.AddItem | frontend/src/components/tasks/ChecklistTask.tsx:36-46 | non-blank text appends exactly one incomplete item and clears the field; blank text changes nothing |
| ChecklistTaskCard.RemoveItem | frontend/src/components/tasks/ChecklistTask.tsx:48-50 | the list becomes exactly the items with other ids, each once, in their old order |
| ChecklistTaskCard.AddThenRemoveRestores | frontend/src/components/tasks/ChecklistTask.tsx:36-50 | adding an item under a fresh id and removing that id restores the list |
| ChecklistTaskCard.RemoveAbsentItemKeepsList | frontend/src/components/tasks/ChecklistTask.tsx:49 | removing an id no item carries keeps the list |
| ChecklistTaskCard.FlipItems | frontend/src/components/tasks/ChecklistTask.tsx:53-55 | flips `completed` on exactly the items with that id, keeping length, order, ids and texts |
| ChecklistTaskCard.FlipTwiceRestores | frontend/src/components/tasks/ChecklistTask.tsx:54 | toggling the same item twice restores the list |
| ChecklistTaskCard.ToggleItemCompletion | frontend/src/components/tasks/ChecklistTask.tsx:52-65 | when not editing, the task goes out with only its items replaced; while editing nothing is forwarded |
| ChecklistTaskCard.CountsAreConsistent | frontend/src/components/tasks/ChecklistTask.tsx:68-69 | the completed count never exceeds the total; it equals the total exactly when every item is done; an absent list counts 0 of 0 |
| Midterm.NewItems | frontend/src/pages/Midterm.tsx:54-60 | the new checklist's items are exactly the subtasks with text, each marked incomplete, each once, in form order |
| Midterm.FilterIncomplete | frontend/src/pages/Midterm.tsx:55-59 | marking the rows incomplete does not change which rows have text, so it commutes with keeping those rows |
| Midterm.NewTask | frontend/src/pages/Midterm.tsx:47-61 | the submitted task is incomplete; it has a date only when it is timed and a date was entered, and an undefined one otherwise; it has items only when it is a checklist, and they are `NewItems` of the subtasks |
| Midterm.AcceptedChecklistHasItems | frontend/src/pages/Midterm.tsx:65 | an accepted checklist task carries at least one item |
| Midterm.HandleAddTask | frontend/src/pages/Midterm.tsx:45-77 | a blank title does nothing; an accepted form (basic, timed with a date, checklist with a non-blank subtask) is submitted and the form resets; otherwise the alert for its kind is raised and the form is kept |
| Midterm.ResetIgnoresServerAnswer | frontend/src/pages/Midterm.tsx:67-70 | after a submission the form resets the same way whether or not the server accepted the task |
| Midterm.ChangeKind | frontend/src/pages/Midterm.tsx:108-112 | any kind other than checklist resets the subtasks to one empty row; title and date are kept |
| Midterm.ChangeKindRoundTrip | frontend/src/pages/Midterm.tsx:108-112 | switching to a kind and back gives back the form with its subtasks kept when both kinds are checklist, and reset to one empty row otherwise |
| Employees.EntryLevel | frontend/src/Employees.tsx:21 | exactly the employees paid under 50000 |
| Employees.SeniorLevel | frontend/src/Employees.tsx:22 | exactly the employees paid 50000 or more |
| Employees.TablesPartitionStaff | frontend/src/Employees.tsx:21-22 | every employee lands in exactly one table, as often as in the input, and the sizes add up |
| Employees.TablesKeepOrder | frontend/src/Employees.tsx:20-22 | both tables keep the input order |
| TaskController.ItemsOf | backend/src/controllers/taskController.ts:72 | a task's items are exactly the item rows under its id, each once, in table order |
| TaskController.GetAllTasks | backend/src/controllers/taskController.ts:27-56 | for a listing order that names every stored task once, one record per task in that order, with distinct ids, its items attached exactly when it is a checklist |
| TaskController.ListingShowsEveryTask | backend/src/controllers/taskController.ts:29 | every stored task appears in the listing |
| TaskController.GetTaskById | backend/src/controllers/taskController.ts:58-83 | 404 for a missing id; otherwise the row, with items exactly when it is a checklist, and those items are the task's item rows in table order |
| TaskController.ListAgreesWithLookup | backend/src/controllers/taskController.ts:27-83 | each task in the listing is what the lookup by its id answers |
| TaskController.CreateTask | backend/src/controllers/taskController.ts:85-133 | 400 with no change for a falsy title or type, or a type that is not a kind; otherwise 201 and a new row under a fresh id, with `completed` defaulting to false and `due_date` to null |
| TaskController.CreatedTaskItems | backend/src/controllers/taskController.ts:112-117 | a new task's items are exactly one row per input, under the new id, defaulting to incomplete; there are none unless it is a checklist with a non-empty list; other tasks' items are untouched |
| TaskController.CreateIgnoresClientItemIds | backend/src/controllers/taskController.ts:113-117 | the item ids a client sends make no difference |
| TaskController.CreateKeepsValid | backend/src/controllers/taskController.ts:97-127 | creation keeps ids fresh and item ids unique |
| TaskController.MergeRow | backend/src/controllers/taskController.ts:151-156 | each of title, type, completed and due date is the body's value when defined, else the stored one; the creation time is kept |
| TaskController.UpdateTask | backend/src/controllers/taskController.ts:135-190 | 404 and no change for a missing task; otherwise the merged row is written, and the items are rewritten only when the old or new type is checklist and items were sent |
| TaskController.UpdateReplacesItemsWholesale | backend/src/controllers/taskController.ts:163-184 | a rewrite leaves the task with exactly the sent items; other tasks' items are untouched |
| TaskController.UpdateKeepsValid | backend/src/controllers/taskController.ts:149-184 | updating keeps ids fresh and item ids unique |
| TaskController.DeleteTask | backend/src/controllers/taskController.ts:192-219 | 404 for a missing id; otherwise the task is removed, with its items when it is a checklist and with none removed otherwise |
| TaskController.DeleteDropsOnlyItsItems | backend/src/controllers/taskController.ts:205-211 | a deleted checklist leaves no item under its id, and other tasks' items are untouched |
| TaskController.DeleteKeepsValid | backend/src/controllers/taskController.ts:196-213 | deletion keeps ids fresh and item ids unique |
| TaskController.ToggleTaskCompletion | backend/src/controllers/taskController.ts:221-257 | 404 for a missing id; otherwise only the stored `completed` is negated |
| TaskController.ToggleTwiceRestores | backend/src/controllers/taskController.ts:234-241 | toggling a task twice restores the store |
| TaskController.FindItem | backend/src/controllers/taskController.ts:276-281 | finds an item with both that id and that task id, or reports that none exists |
| TaskController.ToggleSubtaskCompletion | backend/src/controllers/taskController.ts:259-316 | 404 when the task is missing or has no such item; otherwise that item's flag is negated and the answer is the task with all its items |
| TaskController.SubtaskToggleFlipsOne | backend/src/controllers/taskController.ts:290-297 | in a valid store exactly the one matching item is flipped and every other row is unchanged |
| IntervieweeController.Validate | backend/src/controllers/intervieweeController.ts:28 | a body passes exactly when the five text fields are present and non-empty and the salary is present |
| IntervieweeController.ZeroSalaryIsPresent | backend/src/controllers/intervieweeController.ts:28-30 | a salary of 0 passes validation; only a missing salary fails |
| IntervieweeController.AddInterviewee | backend/src/controllers/intervieweeController.ts:22-45 | 400 with no insert for an invalid body; otherwise 201 and one new row under a fresh id |
| IntervieweeController.UpdateInterviewee | backend/src/controllers/intervieweeController.ts:48-75 | validation comes first (400, nothing touched); then 404 for a missing id; otherwise all six fields of that row are overwritten and every other row is kept |
| IntervieweeController.DeleteInterviewee | backend/src/controllers/intervieweeController.ts:78-90 | the row is gone and the others are kept; the status is 200 whether or not it existed |
| IntervieweeController.DeleteIsIdempotent | backend/src/controllers/intervieweeController.ts:82 | deleting twice is deleting once |
| IntervieweeController.AddThenDeleteRestores | backend/src/controllers/intervieweeController.ts:33-36 | adding an interviewee and deleting the new id restores the table |
| IntervieweeController.GetInterviewees | backend/src/controllers/intervieweeController.ts:10-20 | for a listing order that names every row once, every row with its stored contents, in that order, with status 200 |
| IntervieweeController.ListingAfterAdd | backend/src/controllers/intervieweeController.ts:10-45 | after an insert the listing is the earlier listing with the new row added |
| Seqs.FilterSelects | frontend/src/patterns/TaskManager.ts:52 | `Array.prototype.filter` keeps exactly the elements that pass, each once, in their original order |
| Seqs.FilterUnique | frontend/src/patterns/TaskManager.ts:97 | that characterization determines the filtered result completely |
| Exchange.AsUpdateBody | backend/src/controllers/taskController.ts:138 | the server sees title, type and completed as given; a left-out due date as undefined, a `null` one as `null`; the items only when the task has a list |
| Exchange.AsCreateBody | backend/src/controllers/taskController.ts:87-104 | the server sees title, type name and completed; a date as that date; an undefined or `null` date as no date |
| Exchange.ClearedDateKeepsStoredDate | backend/src/controllers/taskController.ts:155 | saving a timed card with an emptied date field leaves the stored due date unchanged |
| Exchange.NullDateClearsStoredDate | backend/src/controllers/taskController.ts:155 | sending back a task whose due date is `null` clears the stored date |
| Exchange.SentDateIsStored | backend/src/controllers/taskController.ts:104 | a date that is sent is stored, by update and by create |
| Exchange.CreateTreatsUnsetAsNull | backend/src/controllers/taskController.ts:104 | on create, an undefined and a `null` due date give the same result |
| Exchange.FetchedListing | frontend/src/patterns/TaskAdapter.ts:6-21 | fetching the server's listing yields one task per stored task in listing order, with unique ids, never an undefined due date, and item lists exactly on the checklists |

## Left out

- HTTP, `fetch`, JSON parsing and the database client are not modelled. A gateway response is `Ok(payload)` or `Fail`. A database error other than "no such row" would make the handlers answer through the error middleware; this is not modelled.
- Async interleaving is not modelled. Each cache operation is atomic. A listener that throws, which would stop the remaining notifications, is not modelled either.
- UnsubscribeSilencesOnlyThatListener: a listener that unsubscribes another while being notified is not modelled. `forEach` walks the old array, so the removed listener is still called in that same round. The lemma covers notifications made after the unsubscribe returned.
- React rendering, hooks, JSX, the card markup and `TaskFactory`'s render dispatch are out of scope. The closed kind datatype stands in for the dispatch.
- Date parsing and formatting (`new Date`, `toISOString`, `toLocaleString`) are abstracted. Timestamps are ordered integers and "now" is a parameter.
- A client due date of `""` is not modelled. The cards and the form always turn an empty date field into undefined before a task leaves them. A body whose `due_date` is `""` would be written through by `updateTask` and stored as null by `createTask`; the model has no such body.
- `Date.now()` ids and the database's id generation are abstracted. Ids are naturals compared only for equality; client ids are parameters and store ids come from counters.
- The checklist progress percentage is left out, because it is floating point.
- Text.IsSpace: `trim` is modelled with ASCII whitespace plus U+00A0 only, and `toLowerCase` with ASCII letters only.
- The sorting strategy used by the to-do page is not part of this model.
- The order of rows in the server's selects is not modelled as fixed. The selects of `tasks` and of `checklist_items` have no `order by`, so the database promises no order. The tasks listing takes its order as a parameter. A task's items are modelled in insertion order (TaskController.ItemsOf); another order from the database is not modelled.
- TaskAdapter.RoundTrip: a round trip through the server does not give back the client's items unchanged. `createTask` and `updateTask` renumber item ids, drop the items of a task that is not a checklist, and leave `items` out of the answer when the list is empty. The lemma relates the gateway's two field mappings only.
- Route wiring, the server bootstrap and the client router are out of scope. The server's toggle paths differ from the client's, so the toggles are not linked end to end; the `Exchange` module links only the create, update and listing exchanges, at the level of bodies.
- TaskController.UpdateTask: a body whose title, type or completed is an explicit null, or whose type is not one of the three kinds, is outside the model. The outcome depends on column constraints of the database, which are not visible. Item inputs always carry a text.
- TaskController.CreateTask: body fields are taken at their intended JSON types. A missing and a null field are both `None`.
- The add-task form's subtask row editing (edit text, add a row, remove a row) is plain list editing and is not modelled.
- The form pages, table, notification, interview-management and salary-filter components are UI or I/O only, and are not modelled.
- Employees: salaries are integers; fractional salaries are not modelled.
