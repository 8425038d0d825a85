/**
 * The persisted entities of the task board's server and the store that holds them:
 * the three document collections keyed by id, and the activity log in insertion order.
 */
module Entities {
  import opened Wrappers
  import opened Numbers

  /**
   * One activity-log record. The repository-assigned id and the `user` field, which no
   * service ever sets, are not part of the model.
   */
  datatype LogEntry = LogEntry(
    taskId: Option<string>,
    boardId: Option<string>,
    action: string,
    description: string,
    timestamp: int)

  datatype Task = Task(
    id: string,
    boardId: string,
    columnId: string,
    title: string,
    description: Option<string>,
    priority: Option<string>,
    assignee: Option<string>,
    status: Option<string>,
    dueDate: Option<string>,
    tags: Option<seq<string>>,
    position: Int32,
    activityLog: Option<seq<LogEntry>>,
    createdAt: Option<int>,
    updatedAt: Option<int>)

  datatype Column = Column(
    id: string,
    boardId: string,
    title: string,
    description: Option<string>,
    color: Option<string>,
    position: Int32,
    createdAt: Option<int>,
    updatedAt: Option<int>)

  datatype Board = Board(
    id: string,
    name: string,
    description: Option<string>,
    columns: seq<Column>,
    activityLog: Option<seq<LogEntry>>,
    createdAt: Option<int>,
    updatedAt: Option<int>)

  /** The database: tasks, columns and boards by id, and the append-only activity log. */
  datatype Store = Store(
    tasks: map<string, Task>,
    columns: map<string, Column>,
    boards: map<string, Board>,
    log: seq<LogEntry>)

  /** What a service call leaves behind: the store after it, and its return value. */
  datatype Step<T> = Step(store: Store, result: T)

  /** A creation: the store and the saved entity, or the `IllegalArgumentException` thrown. */
  datatype Created<T> = Created(store: Store, value: T) | IllegalArgument(message: string)

  /** Every document is stored under its own id. */
  predicate KeysMatch(s: Store) {
    && (forall k :: k in s.tasks ==> s.tasks[k].id == k)
    && (forall k :: k in s.columns ==> s.columns[k].id == k)
    && (forall k :: k in s.boards ==> s.boards[k].id == k)
  }

  /** The tasks stored in a column (what `countByColumnId` counts). */
  function TasksInColumn(tasks: map<string, Task>, columnId: string): set<string> {
    set k | k in tasks && tasks[k].columnId == columnId
  }

  /** `TaskRepository.countByColumnId`. */
  function CountTasksInColumn(tasks: map<string, Task>, columnId: string): nat {
    |TasksInColumn(tasks, columnId)|
  }

  /** `ColumnRepository.countByBoardId`. */
  function CountColumnsInBoard(columns: map<string, Column>, boardId: string): nat {
    |set k | k in columns && columns[k].boardId == boardId|
  }

  /** Saving a new task under a fresh id adds one to its column's count and no other. */
  lemma CountAfterInsert(tasks: map<string, Task>, id: string, t: Task, c: string)
    requires id !in tasks
    ensures CountTasksInColumn(tasks[id := t], c)
      == CountTasksInColumn(tasks, c) + (if t.columnId == c then 1 else 0)
  {
    if t.columnId == c {
      assert TasksInColumn(tasks[id := t], c) == TasksInColumn(tasks, c) + {id};
    } else {
      assert TasksInColumn(tasks[id := t], c) == TasksInColumn(tasks, c);
    }
  }

  /** Rewriting a stored task moves it from its old column's count to its new one's. */
  lemma CountAfterReplace(tasks: map<string, Task>, id: string, t: Task, c: string)
    requires id in tasks
    ensures CountTasksInColumn(tasks[id := t], c)
      == CountTasksInColumn(tasks, c)
         - (if tasks[id].columnId == c then 1 else 0)
         + (if t.columnId == c then 1 else 0)
  {
    var rest := tasks - {id};
    assert tasks == rest[id := tasks[id]];
    assert tasks[id := t] == rest[id := t];
    CountAfterInsert(rest, id, tasks[id], c);
    CountAfterInsert(rest, id, t, c);
  }
}
