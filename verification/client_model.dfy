/** The browser's view of a board: boards hold ordered columns, columns hold ordered tasks. */
module ClientModel {
  import opened Wrappers

  datatype Priority = Low | Medium | High

  datatype Activity = Activity(
    id: string,
    taskId: Option<string>,
    boardId: Option<string>,
    action: string,
    description: string,
    timestamp: string,
    user: string)

  datatype Task = Task(
    id: string,
    title: string,
    description: Option<string>,
    priority: Option<Priority>,
    assignee: Option<string>,
    dueDate: Option<string>,
    tags: Option<seq<string>>,
    activityLog: Option<seq<Activity>>)

  datatype Column = Column(id: string, title: string, tasks: seq<Task>)

  /** From `fromColumnId` a task may go to the listed columns. */
  datatype WorkflowRule = WorkflowRule(fromColumnId: string, toColumnIds: seq<string>)

  datatype Board = Board(
    id: string,
    name: string,
    columns: seq<Column>,
    workflowRules: Option<seq<WorkflowRule>>,
    activityLog: Option<seq<Activity>>)

  /** `tasks.filter((t) => t.id !== id)`: the tasks with another id, in their order. */
  function WithoutTask(tasks: seq<Task>, id: string): (r: seq<Task>)
    ensures forall t :: t in r ==> t in tasks && t.id != id
    ensures forall t :: t in tasks && t.id != id ==> t in r
    ensures |r| == |tasks| - CountId(tasks, id)
  {
    if |tasks| == 0 then []
    else if tasks[0].id == id then WithoutTask(tasks[1..], id)
    else [tasks[0]] + WithoutTask(tasks[1..], id)
  }

  /** How many of the tasks carry the id. */
  function CountId(tasks: seq<Task>, id: string): (n: nat)
    ensures n <= |tasks|
  {
    if |tasks| == 0 then 0
    else (if tasks[0].id == id then 1 else 0) + CountId(tasks[1..], id)
  }

  /** Filtering by id twice is filtering once. */
  lemma {:induction false} WithoutTaskIdempotent(tasks: seq<Task>, id: string)
    ensures WithoutTask(WithoutTask(tasks, id), id) == WithoutTask(tasks, id)
  {
    if |tasks| > 0 {
      WithoutTaskIdempotent(tasks[1..], id);
      if tasks[0].id != id {
        assert ([tasks[0]] + WithoutTask(tasks[1..], id))[1..] == WithoutTask(tasks[1..], id);
      }
    }
  }

  /** Appending a task with the removed id and filtering again drops exactly that task. */
  lemma {:induction false} WithoutTaskAppend(tasks: seq<Task>, t: Task, id: string)
    ensures WithoutTask(tasks + [t], id) == WithoutTask(tasks, id) + (if t.id == id then [] else [t])
  {
    if |tasks| == 0 {
      assert tasks + [t] == [t];
    } else {
      assert (tasks + [t])[1..] == tasks[1..] + [t];
      WithoutTaskAppend(tasks[1..], t, id);
    }
  }

  /** A list that lacks the id is left alone. */
  lemma {:induction false} WithoutAbsentTask(tasks: seq<Task>, id: string)
    requires forall t :: t in tasks ==> t.id != id
    ensures WithoutTask(tasks, id) == tasks
  {
    if |tasks| > 0 {
      assert tasks[0] in tasks;
      assert forall t :: t in tasks[1..] ==> t in tasks;
      WithoutAbsentTask(tasks[1..], id);
      assert tasks == [tasks[0]] + tasks[1..];
    }
  }

  lemma {:induction false} CountIdAppend(tasks: seq<Task>, t: Task, id: string)
    ensures CountId(tasks + [t], id) == CountId(tasks, id) + (if t.id == id then 1 else 0)
  {
    if |tasks| == 0 {
      assert tasks + [t] == [t];
    } else {
      assert (tasks + [t])[1..] == tasks[1..] + [t];
      CountIdAppend(tasks[1..], t, id);
    }
  }

  /** After filtering, no task carries the id. */
  lemma WithoutTaskCount(tasks: seq<Task>, id: string)
    ensures CountId(WithoutTask(tasks, id), id) == 0
  {
    WithoutTaskIdempotent(tasks, id);
  }

  /** A task whose id is counted zero times is absent. */
  lemma {:induction false} CountIdZero(tasks: seq<Task>, id: string)
    requires CountId(tasks, id) == 0
    ensures forall t :: t in tasks ==> t.id != id
  {
    if |tasks| > 0 {
      CountIdZero(tasks[1..], id);
      assert forall t :: t in tasks ==> t == tasks[0] || t in tasks[1..];
    }
  }

  /** Whether any task in the column has the id (`col.tasks.some((t) => t.id === id)`). */
  predicate HasTask(c: Column, id: string) {
    exists t :: t in c.tasks && t.id == id
  }

  /** All tasks on the board. */
  function TotalTasks(columns: seq<Column>): nat {
    if |columns| == 0 then 0 else |columns[0].tasks| + TotalTasks(columns[1..])
  }

  /** How many tasks on the board carry the id. */
  function CountOnBoard(columns: seq<Column>, id: string): nat {
    if |columns| == 0 then 0 else CountId(columns[0].tasks, id) + CountOnBoard(columns[1..], id)
  }

  /** No id is on the board more often than there are tasks. */
  lemma {:induction false} CountOnBoardBound(columns: seq<Column>, id: string)
    ensures CountOnBoard(columns, id) <= TotalTasks(columns)
  {
    if |columns| > 0 {
      CountOnBoardBound(columns[1..], id);
    }
  }

  /** How many columns carry the id. */
  function ColumnsWithId(columns: seq<Column>, id: string): nat {
    if |columns| == 0 then 0 else (if columns[0].id == id then 1 else 0) + ColumnsWithId(columns[1..], id)
  }

  /** The ids of the columns, in board order. */
  function ColumnIds(columns: seq<Column>): (ids: seq<string>)
    ensures |ids| == |columns|
    ensures forall i :: 0 <= i < |columns| ==> ids[i] == columns[i].id
  {
    if |columns| == 0 then [] else [columns[0].id] + ColumnIds(columns[1..])
  }
}
