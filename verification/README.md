# Kanban board: services, board reducer and task forms

A Dafny model of the task-board application's core. It has three parts, each deterministic once clocks and ids are passed in as inputs.

1. **Server services** (`TaskService`, `ColumnService`, `BoardService`, `ActivityLogService`).
   - The document store is an immutable `Store`:
     - maps from id to `Task`, `Column` and `Board`;
     - an append-only sequence of `LogEntry`.
   - Every service call is a pure function from a store to a new store plus a result.
   - Not-found becomes `None` or `false`. A thrown `IllegalArgumentException` becomes the `IllegalArgument` variant carrying the exact message.
   - Kotlin's `Long.toInt()` on a repository count is written out as 32-bit wrap-around (`Numbers.ToInt32`).
   - A `Long` due date becomes its decimal text (`Numbers.Show`), with a parser proving the text determines the number.
   - `AuditTrail` runs any sequence of service calls. Over such a run, the log only grows, by exactly one entry per successful logging call.
2. **Client board reducer** (`kanban-board.tsx`, `kanban-column.tsx`, `app/page.tsx`).
   - A board is a sequence of columns, and a column is a sequence of tasks.
   - Modelled parts:
     - the workflow check `canMoveTask`, with a search-free reference policy;
     - the drag-over preview;
     - the drop guard, the move request and the failure rollback;
     - the column and task list edits;
     - the page's board list: replace the current board, replace its columns, add a board with the default columns and rules, and the fallback for the board on screen.
3. **Task forms** (`add-task-dialog.tsx`, `edit-task-dialog.tsx`).
   - Modelled behaviour:
     - JavaScript `trim` over its white-space set;
     - rejection of a blank title;
     - optional fields becoming absent when empty;
     - comma-separated tag parsing;
     - the add dialog's reset;
     - the edit dialog's form filled from a task, and its join-then-parse round trip;
     - the activity tab, newest first.

## Behaviour the model follows

The model follows the code as written in each of these cases:

- **Same-column move.** `moveTask` has no same-column case (`TaskService.MoveWithinColumn`). Such a move is saved and logged as `TASK_MOVED`. Without a position, the count it reads includes the task itself, so the task lands one past the end.
- **Rollback.** The failure rollback is computed from the board as it is at drop time. That is the previewed board, not a snapshot taken at drag start. It restores the pre-drag board only when the dragged task was last in its origin column (`KanbanBoard.RollbackUndoesPreview`). Otherwise the task comes back at the end of that column (`KanbanBoard.RollbackReordersOrigin`).
- **Drop position.** A successful drop requests position 0. The local board keeps the preview, which shows the task at the end of the target column.
- **`updateBoard`.** It does not copy the embedded column list, so the saved board's list is empty.
- **Column and board logging.** Column entries carry no task id. Board operations and the two position updates write no log entry.
- **Move request.** `handleDragEnd` calls `tasksApi.move` with four arguments: board id, origin column, task id, and the body with target column and position 0 (`frontend/components/kanban-board.tsx` lines 111-116). The client function declares only a task id and the body (`frontend/lib/api.ts` line 215). The model keeps the call site's four arguments as the request (`KanbanBoard.MoveRequest`), the evident intent. It does not model how the extra arguments would be bound at run time.
- **Activity listings.** The repository's `findByBoardId` and `findByTaskId` name no order. The model lists entries in write order. `ActivityLogService.LogsByBoardCounts`, `LogsByTaskCounts` and `LogActivityCounted` state the listings' contents without relying on that order.
- **Two field names.** The client's column label is `title` in `app/page.tsx` and `name` in `lib/api.ts`. The model carries it once, as `title`.

## Model

| member | source | states |
|---|---|---|
| ActivityLogService.CreateLog | backend/src/main/kotlin/org/widmerkillenberger/backend/service/ActivityLogService.kt:11-19 | appends one entry holding the given optional task and board ids, action and description verbatim; the rest of the store is unchanged |
| ActivityLogService.LogActivity | backend/src/main/kotlin/org/widmerkillenberger/backend/service/ActivityLogService.kt:21-36 | appends one entry with the given board, action and description, and the task id only when one is passed (none by default) |
| ActivityLogService.LogsByBoard | backend/src/main/kotlin/org/widmerkillenberger/backend/service/ActivityLogService.kt:38-40 | an entry is listed exactly when it is in the log and names that board |
| ActivityLogService.LogsByTask | backend/src/main/kotlin/org/widmerkillenberger/backend/service/ActivityLogService.kt:42-44 | an entry is listed exactly when it is in the log and names that task |
| ActivityLogService.LogActivityListed | backend/src/main/kotlin/org/widmerkillenberger/backend/service/ActivityLogService.kt:21-44 | a write appears at the end of its board's listing and, if it names a task, of that task's listing; every other listing is unchanged |
| ActivityLogService.LogsByBoardCounts | backend/src/main/kotlin/org/widmerkillenberger/backend/service/ActivityLogService.kt:38-40 | order aside, a board's listing holds each of the board's entries as often as the log does, and nothing else |
| ActivityLogService.LogsByTaskCounts | backend/src/main/kotlin/org/widmerkillenberger/backend/service/ActivityLogService.kt:42-44 | order aside, a task's listing holds each of the task's entries as often as the log does, and nothing else |
| ActivityLogService.LogActivityCounted | backend/src/main/kotlin/org/widmerkillenberger/backend/service/ActivityLogService.kt:21-44 | order aside, a write is added once to its board's listing and, if it names a task, once to that task's listing; other listings are unchanged |
| ActivityLogService.LogsByBoardPrefix | backend/src/main/kotlin/org/widmerkillenberger/backend/service/ActivityLogService.kt:38-40 | as the log grows, a board's earlier listing stays a prefix of its later one |
| BoardService.GetBoardById | backend/src/main/kotlin/org/widmerkillenberger/backend/service/BoardService.kt:16-18 | the stored board, or none exactly when the id is absent |
| BoardService.CreateBoard | backend/src/main/kotlin/org/widmerkillenberger/backend/service/BoardService.kt:20-29 | stores a board with the given name and description under a fresh id, with no columns and no log entry |
| BoardService.UpdateBoard | backend/src/main/kotlin/org/widmerkillenberger/backend/service/BoardService.kt:31-42 | none and no change when the board is missing; otherwise name and description are replaced outright (a missing description clears it) while id, embedded log and creation time are kept |
| BoardService.DeleteBoard | backend/src/main/kotlin/org/widmerkillenberger/backend/service/BoardService.kt:44-48 | true exactly when the board exists; removes only that board and leaves columns, tasks and log alone |
| BoardService.CreateThenGet | backend/src/main/kotlin/org/widmerkillenberger/backend/service/BoardService.kt:16-29 | a created board is found under its id, and lookups of other ids are unaffected |
| BoardService.DeleteThenGet | backend/src/main/kotlin/org/widmerkillenberger/backend/service/BoardService.kt:16-48 | after deletion the board is not found and a second delete reports false |
| ColumnService.GetColumnById | backend/src/main/kotlin/org/widmerkillenberger/backend/service/ColumnService.kt:14-16 | the stored column, or none exactly when the id is absent |
| ColumnService.NextColumnPosition | backend/src/main/kotlin/org/widmerkillenberger/backend/service/ColumnService.kt:38 | the explicit position if given, else the board's column count (when it fits an `Int`) |
| ColumnService.CreateColumn | backend/src/main/kotlin/org/widmerkillenberger/backend/service/ColumnService.kt:22-53 | fails with "Board not found with id: …" and no change when the board is missing; otherwise stores the column with colour "#3b82f6" unless given and position by count, and logs one `COLUMN_CREATED` entry for the board with no task id |
| ColumnService.UpdateColumn | backend/src/main/kotlin/org/widmerkillenberger/backend/service/ColumnService.kt:55-87 | none and no change when the column or its board is missing; otherwise each given field replaces the stored one, the rest (id, board, creation time) is kept, and one `COLUMN_UPDATED` entry is logged |
| ColumnService.DeleteColumn | backend/src/main/kotlin/org/widmerkillenberger/backend/service/ColumnService.kt:89-104 | false and no change when a lookup fails; otherwise removes only that column, leaves its tasks in place and logs `COLUMN_DELETED` |
| ColumnService.UpdateColumnPosition | backend/src/main/kotlin/org/widmerkillenberger/backend/service/ColumnService.kt:106-120 | none when missing; otherwise only the position and update time change and nothing is logged |
| ColumnService.CreateColumnAtEnd | backend/src/main/kotlin/org/widmerkillenberger/backend/service/ColumnService.kt:37-42 | a column created without a position is placed just past the board's other columns |
| TaskService.GetTaskById | backend/src/main/kotlin/org/widmerkillenberger/backend/service/TaskService.kt:15-17 | the stored task, or none exactly when the id is absent |
| TaskService.NextTaskPosition | backend/src/main/kotlin/org/widmerkillenberger/backend/service/TaskService.kt:54 | the explicit position if given, else the column's task count read before the save (when it fits an `Int`) |
| TaskService.DueDateText | backend/src/main/kotlin/org/widmerkillenberger/backend/service/TaskService.kt:52 | a due date is stored as decimal text that parses back to the same number |
| TaskService.CreateTask | backend/src/main/kotlin/org/widmerkillenberger/backend/service/TaskService.kt:27-70 | fails, column first and then board, with the exact messages and no change; otherwise stores the task with priority "medium", status "todo" and tags [] unless given, position by count, and logs one `TASK_CREATED` entry with the new id |
| TaskService.PatchTask | backend/src/main/kotlin/org/widmerkillenberger/backend/service/TaskService.kt:86-101 | each given field replaces the stored one, each missing one keeps it; id, board, column, position, embedded log and creation time never change |
| TaskService.UpdateTask | backend/src/main/kotlin/org/widmerkillenberger/backend/service/TaskService.kt:72-114 | none and no change when the task, its column or its board is missing; otherwise saves the patched task and logs one `TASK_UPDATED` entry |
| TaskService.DeleteTask | backend/src/main/kotlin/org/widmerkillenberger/backend/service/TaskService.kt:116-133 | false and no change when a lookup fails; otherwise removes exactly that task and logs `TASK_DELETED` |
| TaskService.MoveTask | backend/src/main/kotlin/org/widmerkillenberger/backend/service/TaskService.kt:135-175 | none and no change when the task, its column, the target or its board is missing; otherwise only column, position and update time change, and one `TASK_MOVED` entry for the task's board follows |
| TaskService.UpdateTaskPosition | backend/src/main/kotlin/org/widmerkillenberger/backend/service/TaskService.kt:177-196 | none when missing; otherwise only position and update time change and nothing is logged |
| TaskService.CreateTaskAtEnd | backend/src/main/kotlin/org/widmerkillenberger/backend/service/TaskService.kt:54-58 | a task created without a position is placed just past the column's other tasks |
| TaskService.MoveTaskAtEnd | backend/src/main/kotlin/org/widmerkillenberger/backend/service/TaskService.kt:158-163 | a task moved to another column without a position lands just past the target's tasks, and the source column loses one |
| TaskService.MoveWithinColumn | backend/src/main/kotlin/org/widmerkillenberger/backend/service/TaskService.kt:145-172 | a move to the task's own column still succeeds and logs `TASK_MOVED`, and the position counts the task itself |
| AuditTrail.ApplyLog | backend/src/main/kotlin/org/widmerkillenberger/backend/service/ActivityLogService.kt:11-44 | a failed call changes nothing; a successful one keeps the log as a prefix and adds one entry exactly for the logging operations |
| AuditTrail.RunLog | backend/src/main/kotlin/org/widmerkillenberger/backend/service/ActivityLogService.kt:11-44 | over any run of service calls the log is append-only and grows by at most one entry per call |
| AuditTrail.RunKeepsKeys | backend/src/main/kotlin/org/widmerkillenberger/backend/service/TaskService.kt:58 | over any run, each document is stored under its own id |
| Numbers.ToInt32 | backend/src/main/kotlin/org/widmerkillenberger/backend/service/TaskService.kt:54 | `Long.toInt()`: the value congruent to the input modulo 2^32 in the `Int` range, equal to it when it fits |
| Numbers.ParseShow | backend/src/main/kotlin/org/widmerkillenberger/backend/service/TaskService.kt:52 | the decimal text of a `Long` parses back to it |
| Numbers.ShowInjective | backend/src/main/kotlin/org/widmerkillenberger/backend/service/TaskService.kt:95 | different due dates are stored as different texts |
| Text.Trim | frontend/components/add-task-dialog.tsx:33 | the result has no white space at either end, is empty exactly for all-white-space input and leaves trimmed text alone |
| Text.TrimIsInfix | frontend/components/add-task-dialog.tsx:33 | the result is a slice of the input with only white space cut from either end |
| Text.TrimUnique | frontend/components/add-task-dialog.tsx:33 | any trimmed, non-empty slice with only white space around it is the result, so the cut is the greatest possible |
| Text.TrimKeepsChars | frontend/components/add-task-dialog.tsx:33 | every character of the result occurs in the input |
| Text.JoinSplit | frontend/components/add-task-dialog.tsx:38-39 | joining the pieces of a split with the separator restores the text |
| Text.ParseTags | frontend/components/add-task-dialog.tsx:38-41 | every parsed tag is non-empty, trimmed and comma-free; a text is a tag exactly when it is a non-empty trimmed comma-separated piece of the input; there are no more tags than pieces |
| Text.ParseTagsConcat | frontend/components/add-task-dialog.tsx:38-41 | the tags of two texts joined by a comma are the tags of the first followed by the tags of the second, so input order is kept |
| Text.TagsRoundTrip | frontend/components/edit-task-dialog.tsx:51-54 | tags joined with ", " parse back to the same list, in order, when each is non-empty, trimmed and comma-free |
| Workflow.FindRule | frontend/components/kanban-board.tsx:56 | a rule for the source exists exactly when one is returned |
| Workflow.FindRuleIsFirst | frontend/components/kanban-board.tsx:56 | the returned rule is the first one for the source |
| Workflow.CanMoveTaskIsPermitted | frontend/components/kanban-board.tsx:52-60 | the check holds exactly when the board has no rules, the move stays in its column, no rule starts at the source, or the first such rule lists the target |
| Workflow.StayIsAllowed | frontend/components/kanban-board.tsx:54 | staying in a column is always allowed |
| Workflow.OpenByDefault | frontend/components/kanban-board.tsx:57 | a source without a rule may go anywhere |
| Workflow.LaterRulesIgnored | frontend/components/kanban-board.tsx:56 | rules after the first for a source have no effect |
| ClientModel.WithoutTask | frontend/components/kanban-board.tsx:77 | keeps exactly the tasks with another id and drops one per copy of the id |
| ClientModel.WithoutTaskIdempotent | frontend/components/kanban-column.tsx:62 | filtering by an id twice is filtering once |
| KanbanBoard.PreviewColumn | frontend/components/kanban-board.tsx:75-91 | the column keeps its id, title and other tasks in order; the dragged task appears once, last, in the hovered column and nowhere else |
| KanbanBoard.Preview | frontend/components/kanban-board.tsx:75-93 | the same columns in the same order, each previewed |
| KanbanBoard.PreviewIdempotent | frontend/components/kanban-board.tsx:75-91 | previewing the same hover twice gives the same board |
| KanbanBoard.LastHoverWins | frontend/components/kanban-board.tsx:75-93 | a preview of a preview depends only on the later hovered column |
| KanbanBoard.PreviewTotal | frontend/components/kanban-board.tsx:75-91 | the task count drops by the copies of the dragged task and rises by one per hovered column |
| KanbanBoard.PreviewKeepsCount | frontend/components/kanban-board.tsx:75-91 | with one copy of the task and one hovered column no task is gained or lost |
| KanbanBoard.FindColumnById | frontend/components/kanban-board.tsx:153 | a column with the id is returned exactly when one exists |
| KanbanBoard.FindColumnByIdIsFirst | frontend/components/kanban-board.tsx:153 | the returned column is the first one with the id |
| KanbanBoard.FindColumnWithTask | frontend/components/kanban-board.tsx:148-150 | a column holding the task is returned exactly when one exists |
| KanbanBoard.FindColumnWithTaskIsFirst | frontend/components/kanban-board.tsx:148-150 | the returned column is the first one holding the task |
| KanbanBoard.FindColumnByTaskOrColumnId | frontend/components/kanban-board.tsx:152-154 | a column whose id matches wins over a column holding such a task; none only when neither exists |
| KanbanBoard.FindTask | frontend/components/kanban-board.tsx:141-146 | a task with the id is returned exactly when some column holds one |
| KanbanBoard.FindTaskInIsFirst | frontend/components/kanban-board.tsx:143 | the task found in a column is its first task with the id |
| KanbanBoard.FindTaskIsFirst | frontend/components/kanban-board.tsx:141-146 | the task returned is the one found in the first column holding the id |
| KanbanBoard.DragStart | frontend/components/kanban-board.tsx:43-50 | records the dragged task and its column (an empty id counts as none) and leaves the hover refs as they were |
| KanbanBoard.DragOver | frontend/components/kanban-board.tsx:62-94 | nothing happens without a target, without an active task, with an unresolvable target or on the last-hovered column; otherwise the column is remembered and the preview emitted |
| KanbanBoard.DragEnd | frontend/components/kanban-board.tsx:96-139 | a request is made exactly when origin and last hover are non-empty, differ, are allowed by the rules and the task is found; it targets the hovered column at position 0, a failure emits the rollback, and the active task is cleared only then |
| KanbanBoard.Rollback | frontend/components/kanban-board.tsx:120-134 | the task is filtered from the target column and appended to the origin column; other columns are unchanged |
| KanbanBoard.RollbackUndoesPreview | frontend/components/kanban-board.tsx:119-135 | rollback after a preview restores the board when the task was last, and only copy, in its origin column |
| KanbanBoard.RollbackReordersOrigin | frontend/components/kanban-board.tsx:127-132 | a task that was not last comes back at the end of its column |
| KanbanBoard.AddColumn | frontend/components/kanban-board.tsx:156-163 | on success the new column is appended and nothing else changes; on failure no board is emitted |
| KanbanBoard.UpdateColumn | frontend/components/kanban-board.tsx:165-173 | on success each column with the id is replaced and the others stay in place; on failure no board is emitted |
| KanbanBoard.WithoutColumn | frontend/components/kanban-board.tsx:178 | keeps exactly the columns with another id |
| KanbanBoard.DeleteColumn | frontend/components/kanban-board.tsx:175-183 | on success the columns with the id are dropped; on failure no board is emitted |
| KanbanBoard.UpdateThenDeleteColumn | frontend/components/kanban-board.tsx:165-183 | updating a column (the server keeping its id) and then deleting it equals deleting it |
| KanbanBoard.DeleteAfterAdd | frontend/components/kanban-board.tsx:156-183 | deleting a column just added under a fresh id restores the column list |
| KanbanBoard.HoverKeepsShown | frontend/components/kanban-board.tsx:66-93 | after any hover, the remembered column shows the dragged task last |
| KanbanBoard.StaleHoverSkipsPreview | frontend/components/kanban-board.tsx:43-50 | as written, a second drag over the column the first drag ended on shows no preview but still requests the move |
| KanbanBoard.DragStartFresh | frontend/components/kanban-board.tsx:43-50 | drag start with the hover ref cleared |
| KanbanBoard.FreshDragShowsTarget | frontend/components/kanban-board.tsx:96-116 | with the ref cleared, every requested move's target column is shown holding the dragged task last |
| KanbanColumn.AppendToColumn | frontend/components/kanban-column.tsx:35-37 | the task is appended to the columns with the id; every other column is unchanged |
| KanbanColumn.AddTask | frontend/components/kanban-column.tsx:32-42 | on success the created task is appended to this column only; on failure no board is emitted |
| KanbanColumn.ReplaceTask | frontend/components/kanban-column.tsx:49 | each task with the id is replaced in place; the others are kept |
| KanbanColumn.UpdateTask | frontend/components/kanban-column.tsx:44-55 | on success every task with the id is replaced by the server's copy, with columns kept in number and order; on failure no board is emitted |
| KanbanColumn.DeleteTask | frontend/components/kanban-column.tsx:57-68 | on success the task is filtered out of every column; on failure no board is emitted |
| KanbanColumn.DropTaskCounts | frontend/components/kanban-column.tsx:60-63 | after a delete no task has the id, and only its copies are gone |
| KanbanColumn.AddTaskCounts | frontend/components/kanban-column.tsx:35-37 | an add raises the task count by one per column with the id |
| KanbanColumn.AddThenDelete | frontend/components/kanban-column.tsx:32-68 | deleting a task just added under an id new to the board restores the board |
| KanbanColumn.UpdateThenDelete | frontend/components/kanban-column.tsx:44-68 | updating a task then deleting it equals deleting it |
| Page.FindBoard | frontend/app/page.tsx:137 | returns the first board with the id, or none exactly when no board has it |
| Page.CurrentBoard | frontend/app/page.tsx:137 | the first board with the current id, else the first board; none only when there are no boards |
| Page.OnBoardChange | frontend/app/page.tsx:186-188 | the boards with the current id become the updated board; the others and their order are unchanged |
| Page.ColumnsChange | frontend/app/page.tsx:143-145 | the current board gets the new columns and keeps its other fields; the other boards are unchanged |
| Page.ColumnsChangeIsShown | frontend/app/page.tsx:143-145 | after a column change the board on screen is the previous one with the new columns |
| Page.SelectBoard | frontend/app/page.tsx:139-141 | only the current id changes |
| Page.NewBoard | frontend/app/page.tsx:152-168 | the new board has the given id and name and empty columns todo, in-progress, review and done, in that order |
| Page.AddBoard | frontend/app/page.tsx:151-171 | the new board is appended and made current |
| Page.AddBoardIsCurrent | frontend/app/page.tsx:169-170 | under a fresh id the added board is the one on screen |
| Page.Initial | frontend/app/page.tsx:49-135 | the page starts with one board on screen, with the four default columns |
| Page.HandleKeepsValid | frontend/app/page.tsx:139-171 | every handler keeps the current id naming a board, given what its callers pass |
| Page.ReachableIsValid | frontend/app/page.tsx:134-137 | in every reachable state the current id names a board, so the fallback is never taken |
| Page.InitialIsValid | frontend/app/page.tsx:135 | the starting current id names a board |
| Page.EditIsShown | frontend/app/page.tsx:186-188 | an edit handed back by the board component is the board then shown |
| Page.EditOfFallbackIsDropped | frontend/app/page.tsx:187 | when the current id names no board, an edit of the board on screen is lost |
| Page.DefaultFromTodo | frontend/app/page.tsx:161-166 | on a new board a task in todo may go only to in-progress (or stay) |
| Page.DefaultFromInProgress | frontend/app/page.tsx:161-166 | from in-progress a task may go on to review or back to todo, nowhere else |
| Page.DefaultFromReview | frontend/app/page.tsx:161-166 | from review a task may go on to done or back to in-progress, nowhere else |
| Page.DefaultFromDone | frontend/app/page.tsx:161-166 | from done a task may only go back to in-progress |
| Page.DefaultDeniesSkip | frontend/app/page.tsx:161-166 | a new board denies moving a task from todo straight to done |
| Page.DefaultRulesOpenElsewhere | frontend/app/page.tsx:161-166 | moves from columns the default rules do not name are open |
| TaskDialogs.OptionalText | frontend/components/add-task-dialog.tsx:34-36 | absent exactly for all-white-space input, else the trimmed text |
| TaskDialogs.OptionalRaw | frontend/components/add-task-dialog.tsx:37 | the date is absent exactly when empty and otherwise kept untrimmed |
| TaskDialogs.Normalise | frontend/components/add-task-dialog.tsx:30-42 | none exactly for a blank title; otherwise trimmed title, optional texts, the date and parsed tags, all in normal form |
| TaskDialogs.AddSubmit | frontend/components/add-task-dialog.tsx:28-51 | a blank title changes nothing and sends nothing; otherwise the fields are sent, the form is reset to empty with priority medium, and the dialog closes |
| TaskDialogs.AddTwice | frontend/components/add-task-dialog.tsx:44-50 | after a successful add, submitting again sends nothing |
| TaskDialogs.EditInit | frontend/components/edit-task-dialog.tsx:32-39 | the form shows the task's title, its description, assignee and due date when present (empty text when absent), its priority with a missing one as medium, and its tags joined with ", " (empty text when absent) |
| TaskDialogs.EditSubmit | frontend/components/edit-task-dialog.tsx:41-58 | a blank title sends nothing and leaves the dialog open and unchanged; otherwise the task's id is sent with the same normalisation as the add dialog, and the dialog closes with its form kept, not reset |
| TaskDialogs.NormaliseInit | frontend/components/edit-task-dialog.tsx:32-55 | the form filled from a task in normal form normalises back to that task's fields |
| TaskDialogs.EditRoundTrip | frontend/components/edit-task-dialog.tsx:25-58 | saving the edit form unchanged sends the task's own fields and tags back, with defaults filled in, and closes the dialog |
| TaskDialogs.SaveIsIdempotent | frontend/components/edit-task-dialog.tsx:41-58 | reopening a saved task and saving again sends the same fields |
| TaskDialogs.Reverse | frontend/components/edit-task-dialog.tsx:144 | position i holds the entry at position length-1-i |
| TaskDialogs.ActivityView | frontend/components/edit-task-dialog.tsx:142-144 | the activity tab lists the log newest first, or nothing when it is missing |
| TaskDialogs.ViewRestoresLog | frontend/components/edit-task-dialog.tsx:144 | reversing the listing gives the log back in recorded order |

## Left out

- The following are not part of this model:
  - the MCP proxy (`mcp-proxy/index.js`): network plumbing;
  - the HTTP client (`frontend/lib/api.ts`): I/O;
  - the controllers and the exception handler: HTTP status mapping.
  A failed API call appears only as an absent result (`Option`/`bool`) of the client transforms.
- The repositories' ordered reads are not modelled (`getAllBoards`, `getTasksByColumnId`, `getTasksByBoardId`, `getColumnsByBoardId`). They are plain filtered reads of the store. Only `countByColumnId` and `countByBoardId` enter the model, as counts over the maps.
- Clocks and ids are inputs:
  - `System.currentTimeMillis` and `Date.now` become a `now` parameter;
  - an id the repository assigns becomes a fresh `newId` parameter.
- Log entry ids are omitted, because they are never read. `ActivityLog.user` is omitted, because it is never set.
- Concurrency is not modelled: no count-then-save race, and no interleaving of HTTP requests with drag events.
- UI code with no state logic is left out: sensors, collision detection, rendering, `task-card.tsx`, `board-selector.tsx`, `edit-column-dialog.tsx` and `add-board-dialog.tsx`.
- `handleBoardsChange` in `app/page.tsx` is left out: nothing calls it.
- `handleColumnsChange` in `app/page.tsx` is modelled (`Page.ColumnsChange`) but is not one of the page's session events (`Page.Event`): the page passes it to no component.
- ActivityLogService.LogsByBoard / LogsByTask: the model fixes each listing to write order, which the repository query does not guarantee. So `LogActivityListed` (a write is listed last) and `LogsByBoardPrefix` (earlier listings stay prefixes) hold for that choice only. The `…Counts` lemmas and `LogActivityCounted` hold for any order.
- ClientModel.WithoutTask: the contract states which tasks are kept. The order of the kept tasks is fixed by the definition but not restated as a separate property.
- Text.IsWhitespace lists the code points JavaScript's `trim` strips. The proofs rely only on a space being white space and a comma not being white space.

## Findings

| source | as written | input that shows it | evidently intended | confidence | as-written member | corrected member |
|---|---|---|---|---|---|---|
| frontend/components/kanban-board.tsx:43-50 | `handleDragStart` sets the origin ref but keeps `lastOverColumnId` from the previous drag, so the "same column" guard in `handleDragOver` (line 70) suppresses the first preview of the next drag | drag task "a" from "todo" to "done", then drag task "b" from "todo" over "done": no preview is emitted, yet the drop requests moving "b" to "done" while the screen still shows it in "todo" | clear the hover ref when a drag starts, so the target a drop requests is always the column shown holding the task | not executed; high | KanbanBoard.StaleHoverSkipsPreview | KanbanBoard.FreshDragShowsTarget |
