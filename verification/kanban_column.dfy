/**
 * The column component's task edits: after the server call succeeds the board is rebuilt
 * locally and handed to `onBoardChange`; when the call fails nothing is handed on.
 */
module KanbanColumn {
  import opened Wrappers
  import opened ClientModel

  /** The task appended to every column with the id; the other columns as they were. */
  function AppendToColumn(columns: seq<Column>, columnId: string, t: Task): (r: seq<Column>)
    ensures |r| == |columns|
    ensures forall i :: 0 <= i < |columns| ==>
      r[i] == if columns[i].id == columnId then columns[i].(tasks := columns[i].tasks + [t]) else columns[i]
  {
    seq(|columns|, i requires 0 <= i < |columns| =>
      if columns[i].id == columnId then columns[i].(tasks := columns[i].tasks + [t]) else columns[i])
  }

  /** `handleAddTask`: the created task appended to every column with this column's id. */
  function AddTask(board: Board, columnId: string, created: Option<Task>): (r: Option<Board>)
    ensures r.Some? <==> created.Some?
    ensures r.Some? ==> r.value == board.(columns := AppendToColumn(board.columns, columnId, created.value))
  {
    if created.None? then None
    else Some(board.(columns := AppendToColumn(board.columns, columnId, created.value)))
  }

  /** `tasks.map((t) => (t.id === id ? updated : t))`. */
  function ReplaceTask(tasks: seq<Task>, id: string, updated: Task): (r: seq<Task>)
    ensures |r| == |tasks|
    ensures forall i :: 0 <= i < |tasks| ==> r[i] == if tasks[i].id == id then updated else tasks[i]
  {
    seq(|tasks|, i requires 0 <= i < |tasks| => if tasks[i].id == id then updated else tasks[i])
  }

  /** `handleUpdateTask`: in every column, each task with the id replaced by the server's copy. */
  function UpdateTask(board: Board, taskId: string, updated: Option<Task>): (r: Option<Board>)
    ensures r.Some? <==> updated.Some?
    ensures r.Some? ==>
      && r.value == board.(columns := r.value.columns)
      && |r.value.columns| == |board.columns|
      && forall i :: 0 <= i < |board.columns| ==>
           && r.value.columns[i].id == board.columns[i].id
           && r.value.columns[i].title == board.columns[i].title
           && r.value.columns[i].tasks == ReplaceTask(board.columns[i].tasks, taskId, updated.value)
  {
    if updated.None? then None
    else
      var columns := board.columns;
      Some(board.(columns := seq(|columns|, i requires 0 <= i < |columns| =>
        columns[i].(tasks := ReplaceTask(columns[i].tasks, taskId, updated.value)))))
  }

  /** The board with every task of the id filtered out of every column. */
  function DropTask(columns: seq<Column>, taskId: string): (r: seq<Column>)
    ensures |r| == |columns|
    ensures forall i :: 0 <= i < |columns| ==>
      r[i] == columns[i].(tasks := WithoutTask(columns[i].tasks, taskId))
  {
    seq(|columns|, i requires 0 <= i < |columns| =>
      columns[i].(tasks := WithoutTask(columns[i].tasks, taskId)))
  }

  /** `handleDeleteTask`: the task filtered out of every column. */
  function DeleteTask(board: Board, taskId: string, deleted: bool): (r: Option<Board>)
    ensures r.Some? <==> deleted
    ensures r.Some? ==> r.value == board.(columns := DropTask(board.columns, taskId))
  {
    if deleted then Some(board.(columns := DropTask(board.columns, taskId))) else None
  }

  /** After a delete no task with the id is left, and only those tasks are gone. */
  lemma {:induction false} DropTaskCounts(columns: seq<Column>, taskId: string)
    ensures CountOnBoard(DropTask(columns, taskId), taskId) == 0
    ensures TotalTasks(DropTask(columns, taskId)) == TotalTasks(columns) - CountOnBoard(columns, taskId)
  {
    if |columns| > 0 {
      var r := DropTask(columns, taskId);
      assert r[1..] == DropTask(columns[1..], taskId);
      WithoutTaskCount(columns[0].tasks, taskId);
      DropTaskCounts(columns[1..], taskId);
      CountOnBoardBound(columns[1..], taskId);
    }
  }

  /** An added task is on the board once more for each column carrying the id. */
  lemma {:induction false} AddTaskCounts(columns: seq<Column>, columnId: string, t: Task)
    ensures TotalTasks(AppendToColumn(columns, columnId, t)) == TotalTasks(columns) + ColumnsWithId(columns, columnId)
  {
    if |columns| > 0 {
      assert AppendToColumn(columns, columnId, t)[1..] == AppendToColumn(columns[1..], columnId, t);
      AddTaskCounts(columns[1..], columnId, t);
    }
  }

  /** Deleting a task just added under an id new to the board gives the board back. */
  lemma AddThenDelete(board: Board, columnId: string, t: Task)
    requires CountOnBoard(board.columns, t.id) == 0
    ensures DeleteTask(AddTask(board, columnId, Some(t)).value, t.id, true) == Some(board)
  {
    var added := AddTask(board, columnId, Some(t)).value;
    var r := DropTask(added.columns, t.id);
    forall i | 0 <= i < |board.columns| ensures r[i] == board.columns[i] {
      var c := board.columns[i];
      AbsentInColumn(board.columns, t.id, i);
      CountIdZero(c.tasks, t.id);
      WithoutAbsentTask(c.tasks, t.id);
      if c.id == columnId {
        WithoutTaskAppend(c.tasks, t, t.id);
      }
    }
    assert r == board.columns;
  }

  lemma {:induction false} AbsentInColumn(columns: seq<Column>, id: string, i: int)
    requires 0 <= i < |columns|
    requires CountOnBoard(columns, id) == 0
    ensures CountId(columns[i].tasks, id) == 0
  {
    if i > 0 {
      AbsentInColumn(columns[1..], id, i - 1);
    }
  }

  /** An update keeping the id leaves every column's length and the board's id count as they were. */
  lemma {:induction false} ReplaceKeepsCount(tasks: seq<Task>, id: string, updated: Task)
    requires updated.id == id
    ensures CountId(ReplaceTask(tasks, id, updated), id) == CountId(tasks, id)
    ensures WithoutTask(ReplaceTask(tasks, id, updated), id) == WithoutTask(tasks, id)
  {
    if |tasks| > 0 {
      var r := ReplaceTask(tasks, id, updated);
      assert r[1..] == ReplaceTask(tasks[1..], id, updated);
      ReplaceKeepsCount(tasks[1..], id, updated);
    }
  }

  /** Updating a task and then deleting it is the same as deleting it straight away. */
  lemma UpdateThenDelete(board: Board, taskId: string, updated: Task)
    requires updated.id == taskId
    ensures DeleteTask(UpdateTask(board, taskId, Some(updated)).value, taskId, true)
      == DeleteTask(board, taskId, true)
  {
    var u := UpdateTask(board, taskId, Some(updated)).value;
    forall i | 0 <= i < |board.columns|
      ensures WithoutTask(u.columns[i].tasks, taskId) == WithoutTask(board.columns[i].tasks, taskId)
    {
      ReplaceKeepsCount(board.columns[i].tasks, taskId, updated);
    }
    assert DropTask(u.columns, taskId) == DropTask(board.columns, taskId);
  }
}
