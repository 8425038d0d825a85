/**
 * The board component's reducer: the drag preview, the drop that asks the server to move
 * the task, the rollback when that request fails, and the column list edits.
 */
module KanbanBoard {
  import opened Wrappers
  import opened ClientModel
  import opened Workflow

  /** One column of the preview: the dragged task taken out, and appended if this column is hovered. */
  function PreviewColumn(c: Column, task: Task, overId: string): (r: Column)
    ensures r.id == c.id && r.title == c.title
    ensures WithoutTask(r.tasks, task.id) == WithoutTask(c.tasks, task.id)
    ensures CountId(r.tasks, task.id) == if c.id == overId then 1 else 0
    ensures c.id == overId ==> |r.tasks| > 0 && r.tasks[|r.tasks| - 1] == task
    ensures c.id != overId ==> r.tasks == WithoutTask(c.tasks, task.id)
  {
    var kept := WithoutTask(c.tasks, task.id);
    WithoutTaskIdempotent(c.tasks, task.id);
    WithoutTaskCount(c.tasks, task.id);
    WithoutTaskAppend(kept, task, task.id);
    CountIdAppend(kept, task, task.id);
    Column(c.id, c.title, if c.id == overId then kept + [task] else kept)
  }

  /**
   * The drag-over preview: the same columns in the same order; the dragged task removed
   * from every column and appended to each hovered one; all other tasks where they were.
   */
  function Preview(columns: seq<Column>, task: Task, overId: string): (r: seq<Column>)
    ensures |r| == |columns|
    ensures forall i :: 0 <= i < |r| ==> r[i] == PreviewColumn(columns[i], task, overId)
  {
    seq(|columns|, i requires 0 <= i < |columns| => PreviewColumn(columns[i], task, overId))
  }

  /** Hovering the same column again changes nothing. */
  lemma PreviewIdempotent(columns: seq<Column>, task: Task, overId: string)
    ensures Preview(Preview(columns, task, overId), task, overId) == Preview(columns, task, overId)
  {
    LastHoverWins(columns, task, overId, overId);
  }

  /** A preview built on a preview depends only on the latest hovered column. */
  lemma LastHoverWins(columns: seq<Column>, task: Task, first: string, second: string)
    ensures Preview(Preview(columns, task, first), task, second) == Preview(columns, task, second)
  {
    var once := Preview(columns, task, first);
    forall i | 0 <= i < |columns|
      ensures PreviewColumn(once[i], task, second) == PreviewColumn(columns[i], task, second)
    {
      var c := columns[i];
      var kept := WithoutTask(c.tasks, task.id);
      var mid := once[i].tasks;
      assert WithoutTask(mid, task.id) == kept;
    }
  }

  /**
   * Counting: the preview drops every copy of the dragged task and adds one per hovered
   * column.
   */
  lemma {:induction false} PreviewTotal(columns: seq<Column>, task: Task, overId: string)
    ensures TotalTasks(Preview(columns, task, overId))
      == TotalTasks(columns) - CountOnBoard(columns, task.id) + ColumnsWithId(columns, overId)
  {
    if |columns| > 0 {
      var r := Preview(columns, task, overId);
      assert r[1..] == Preview(columns[1..], task, overId);
      PreviewTotal(columns[1..], task, overId);
      CountOnBoardBound(columns[1..], task.id);
    }
  }

  /** With the task on the board once and one hovered column, no task is gained or lost. */
  lemma PreviewKeepsCount(columns: seq<Column>, task: Task, overId: string)
    requires CountOnBoard(columns, task.id) == 1
    requires ColumnsWithId(columns, overId) == 1
    ensures TotalTasks(Preview(columns, task, overId)) == TotalTasks(columns)
  {
    PreviewTotal(columns, task, overId);
  }

  /** Column `i` is the first with the id. */
  ghost predicate FirstWithId(columns: seq<Column>, id: string, i: int) {
    && 0 <= i < |columns|
    && columns[i].id == id
    && forall k :: 0 <= k < i ==> columns[k].id != id
  }

  /** Column `i` is the first holding a task with the id. */
  ghost predicate FirstHolding(columns: seq<Column>, id: string, i: int) {
    && 0 <= i < |columns|
    && HasTask(columns[i], id)
    && forall k :: 0 <= k < i ==> !HasTask(columns[k], id)
  }

  /** `j` is the index of the first task carrying `id`. */
  ghost predicate FirstTaskWithId(tasks: seq<Task>, id: string, j: int) {
    && 0 <= j < |tasks|
    && tasks[j].id == id
    && forall k :: 0 <= k < j ==> tasks[k].id != id
  }

  /** The first column with the id (`columns.find((col) => col.id === id)`). */
  function FindColumnById(columns: seq<Column>, id: string): (r: Option<Column>)
    ensures r.None? <==> forall i :: 0 <= i < |columns| ==> columns[i].id != id
    ensures r.Some? ==> r.value in columns && r.value.id == id
  {
    if |columns| == 0 then None
    else if columns[0].id == id then Some(columns[0])
    else FindColumnById(columns[1..], id)
  }

  /** `findColumn`: the first column holding a task with the id. */
  function FindColumnWithTask(columns: seq<Column>, id: string): (r: Option<Column>)
    ensures r.None? <==> forall i :: 0 <= i < |columns| ==> !HasTask(columns[i], id)
    ensures r.Some? ==> r.value in columns && HasTask(r.value, id)
  {
    if |columns| == 0 then None
    else if HasTask(columns[0], id) then Some(columns[0])
    else FindColumnWithTask(columns[1..], id)
  }

  /** `findColumnByTaskOrColumnId`: a column with that id wins over a column holding such a task. */
  function FindColumnByTaskOrColumnId(columns: seq<Column>, id: string): (r: Option<Column>)
    ensures (exists i :: 0 <= i < |columns| && columns[i].id == id) ==> r.Some? && r.value.id == id
    ensures r.None? <==> forall i :: 0 <= i < |columns| ==> columns[i].id != id && !HasTask(columns[i], id)
    ensures r.Some? ==> r.value in columns && (r.value.id == id || HasTask(r.value, id))
  {
    match FindColumnById(columns, id)
    case Some(c) => Some(c)
    case None => FindColumnWithTask(columns, id)
  }

  /** `findTask`: the first task with the id, scanning columns in order. */
  function FindTask(columns: seq<Column>, id: string): (r: Option<Task>)
    ensures r.None? <==> forall i :: 0 <= i < |columns| ==> !HasTask(columns[i], id)
    ensures r.Some? ==> r.value.id == id && exists c :: c in columns && r.value in c.tasks
  {
    if |columns| == 0 then None
    else
      match FindTaskIn(columns[0].tasks, id)
      case Some(t) => Some(t)
      case None =>
        assert forall c :: c in columns[1..] ==> c in columns;
        FindTask(columns[1..], id)
  }

  /** `tasks.find((t) => t.id === id)`. */
  function FindTaskIn(tasks: seq<Task>, id: string): (r: Option<Task>)
    ensures r.None? <==> forall t :: t in tasks ==> t.id != id
    ensures r.Some? ==> r.value in tasks && r.value.id == id
  {
    if |tasks| == 0 then None
    else if tasks[0].id == id then Some(tasks[0])
    else
      assert forall t :: t in tasks ==> t == tasks[0] || t in tasks[1..];
      FindTaskIn(tasks[1..], id)
  }

  /** `find` on the columns by id returns the first column with the id. */
  lemma {:induction false} FindColumnByIdIsFirst(columns: seq<Column>, id: string)
    requires FindColumnById(columns, id).Some?
    ensures exists i :: FirstWithId(columns, id, i) && columns[i] == FindColumnById(columns, id).value
  {
    if columns[0].id == id {
      assert FirstWithId(columns, id, 0);
    } else {
      var tail := columns[1..];
      FindColumnByIdIsFirst(tail, id);
      var k :| FirstWithId(tail, id, k) && tail[k] == FindColumnById(tail, id).value;
      assert FirstWithId(columns, id, k + 1) by {
        forall j | 0 <= j < k + 1 ensures columns[j].id != id {
          if j > 0 {
            assert columns[j] == tail[j - 1];
          }
        }
      }
    }
  }

  /** `findColumn` returns the first column holding the task. */
  lemma {:induction false} FindColumnWithTaskIsFirst(columns: seq<Column>, id: string)
    requires FindColumnWithTask(columns, id).Some?
    ensures exists i :: FirstHolding(columns, id, i) && columns[i] == FindColumnWithTask(columns, id).value
  {
    if HasTask(columns[0], id) {
      assert FirstHolding(columns, id, 0);
    } else {
      var tail := columns[1..];
      FindColumnWithTaskIsFirst(tail, id);
      var k :| FirstHolding(tail, id, k) && tail[k] == FindColumnWithTask(tail, id).value;
      assert FirstHolding(columns, id, k + 1) by {
        forall j | 0 <= j < k + 1 ensures !HasTask(columns[j], id) {
          if j > 0 {
            assert columns[j] == tail[j - 1];
          }
        }
      }
    }
  }

  /** `tasks.find` returns the first task with the id. */
  lemma {:induction false} FindTaskInIsFirst(tasks: seq<Task>, id: string)
    requires FindTaskIn(tasks, id).Some?
    ensures exists j :: FirstTaskWithId(tasks, id, j) && tasks[j] == FindTaskIn(tasks, id).value
  {
    if tasks[0].id != id {
      var tail := tasks[1..];
      FindTaskInIsFirst(tail, id);
      var j :| FirstTaskWithId(tail, id, j) && tail[j] == FindTaskIn(tail, id).value;
      assert tasks[j + 1] == tail[j];
      assert FirstTaskWithId(tasks, id, j + 1) by {
        forall k | 0 <= k < j + 1 ensures tasks[k].id != id {
          if k > 0 {
            assert tasks[k] == tail[k - 1];
          }
        }
      }
    } else {
      assert FirstTaskWithId(tasks, id, 0);
    }
  }

  /** `findTask` returns what `find` gives in the first column holding the task. */
  lemma {:induction false} FindTaskIsFirst(columns: seq<Column>, id: string)
    requires FindTask(columns, id).Some?
    ensures exists i :: FirstHolding(columns, id, i) && FindTaskIn(columns[i].tasks, id) == FindTask(columns, id)
  {
    if FindTaskIn(columns[0].tasks, id).Some? {
      assert HasTask(columns[0], id);
      assert FirstHolding(columns, id, 0);
    } else {
      assert !HasTask(columns[0], id);
      var tail := columns[1..];
      FindTaskIsFirst(tail, id);
      var k :| FirstHolding(tail, id, k) && FindTaskIn(tail[k].tasks, id) == FindTask(tail, id);
      assert FirstHolding(columns, id, k + 1) by {
        forall j | 0 <= j < k + 1 ensures !HasTask(columns[j], id) {
          if j > 0 {
            assert columns[j] == tail[j - 1];
          }
        }
      }
    }
  }

  /** The component's drag bookkeeping: React state and the two refs. */
  datatype DragState = DragState(
    activeTask: Option<Task>,
    hoveredColumnId: Option<string>,
    lastOverColumnId: Option<string>,
    originalColumnId: Option<string>)

  /** JavaScript truthiness of an optional id: present and not the empty string. */
  predicate Truthy(id: Option<string>) {
    id.Some? && id.value != ""
  }

  /**
   * `handleDragStart`: remember the dragged task and its column (an empty column id counts
   * as none). The hover ref is not reset.
   */
  function DragStart(board: Board, st: DragState, activeId: string): (r: DragState)
    ensures r.activeTask == FindTask(board.columns, activeId)
    ensures r.originalColumnId.Some? <==>
      FindColumnWithTask(board.columns, activeId).Some? && FindColumnWithTask(board.columns, activeId).value.id != ""
    ensures r.originalColumnId.Some? ==> r.originalColumnId.value == FindColumnWithTask(board.columns, activeId).value.id
    ensures r.lastOverColumnId == st.lastOverColumnId && r.hoveredColumnId == st.hoveredColumnId
  {
    var origin := match FindColumnWithTask(board.columns, activeId)
      case Some(c) => if c.id != "" then Some(c.id) else None
      case None => None;
    st.(activeTask := FindTask(board.columns, activeId), originalColumnId := origin)
  }

  /** A reducer step: the component's state afterwards, and the board handed to `onBoardChange`, if any. */
  datatype Reaction = Reaction(state: DragState, emitted: Option<Board>)

  /**
   * `handleDragOver`: nothing happens without a drop target, without an active task, when
   * the target resolves to no column, or when it is the column last hovered. Otherwise the
   * column is remembered and the preview emitted.
   */
  function DragOver(board: Board, st: DragState, over: Option<string>): (r: Reaction)
    ensures r.emitted.None? <==>
      || over.None? || st.activeTask.None?
      || FindColumnByTaskOrColumnId(board.columns, over.value).None?
      || st.lastOverColumnId == Some(FindColumnByTaskOrColumnId(board.columns, over.value).value.id)
    ensures r.emitted.None? ==> r.state == st
    ensures r.emitted.Some? ==>
      var target := FindColumnByTaskOrColumnId(board.columns, over.value).value.id;
      && r.state == st.(lastOverColumnId := Some(target), hoveredColumnId := Some(target))
      && r.emitted.value == board.(columns := Preview(board.columns, st.activeTask.value, target))
  {
    if over.None? || st.activeTask.None? then Reaction(st, None)
    else
      match FindColumnByTaskOrColumnId(board.columns, over.value)
      case None => Reaction(st, None)
      case Some(c) =>
        if st.lastOverColumnId == Some(c.id) then Reaction(st, None)
        else
          var next := st.(lastOverColumnId := Some(c.id), hoveredColumnId := Some(c.id));
          Reaction(next, Some(board.(columns := Preview(board.columns, st.activeTask.value, c.id))))
  }

  /**
   * The server request a drop issues: the four arguments `handleDragEnd` passes to
   * `tasksApi.move`, kept as the call site writes them (the client function itself takes
   * only a task id and the move body).
   */
  datatype MoveRequest = MoveRequest(
    boardId: string, fromColumnId: string, taskId: string, targetColumnId: string, position: int)

  /** A drop: the request sent, if any, and the reducer's reaction. */
  datatype Drop = Drop(request: Option<MoveRequest>, reaction: Reaction)

  /**
   * The failure rollback: the task filtered out of the target column and appended to the
   * origin column; every other column as it was.
   */
  function Rollback(columns: seq<Column>, from: string, to: string, task: Task, activeId: string)
    : (r: seq<Column>)
    ensures |r| == |columns|
    ensures forall i :: 0 <= i < |r| ==> r[i].id == columns[i].id && r[i].title == columns[i].title
    ensures forall i :: 0 <= i < |r| && columns[i].id == to ==>
      r[i].tasks == WithoutTask(columns[i].tasks, activeId)
    ensures forall i :: 0 <= i < |r| && columns[i].id != to && columns[i].id == from ==>
      r[i].tasks == columns[i].tasks + [task]
    ensures forall i :: 0 <= i < |r| && columns[i].id != to && columns[i].id != from ==>
      r[i] == columns[i]
  {
    seq(|columns|, i requires 0 <= i < |columns| =>
      var c := columns[i];
      if c.id == to then c.(tasks := WithoutTask(c.tasks, activeId))
      else if c.id == from then c.(tasks := c.tasks + [task])
      else c)
  }

  /**
   * `handleDragEnd`: no request unless both the origin and the last hovered column are
   * known, differ, the rules allow the move, and the task is found; then the move to the
   * hovered column at position 0 is requested, and if it fails the rollback is emitted.
   * The refs are not cleared; the active task is cleared only once a request was made.
   */
  function DragEnd(board: Board, st: DragState, activeId: string, requestFails: bool): (d: Drop)
    ensures d.request.None? <==>
      || !Truthy(st.originalColumnId) || !Truthy(st.lastOverColumnId)
      || st.originalColumnId == st.lastOverColumnId
      || !CanMoveTask(board, st.originalColumnId.value, st.lastOverColumnId.value)
      || FindTask(board.columns, activeId).None?
    ensures d.request.None? ==> d.reaction == Reaction(st, None)
    ensures d.request.Some? ==>
      var from := st.originalColumnId.value;
      var to := st.lastOverColumnId.value;
      var task := FindTask(board.columns, activeId).value;
      && d.request.value == MoveRequest(board.id, from, task.id, to, 0)
      && d.reaction.state == st.(activeTask := None)
      && (requestFails ==>
            d.reaction.emitted == Some(board.(columns := Rollback(board.columns, from, to, task, activeId))))
      && (!requestFails ==> d.reaction.emitted.None?)
  {
    var from := st.originalColumnId;
    var to := st.lastOverColumnId;
    if !Truthy(from) || !Truthy(to) then Drop(None, Reaction(st, None))
    else if from == to then Drop(None, Reaction(st, None))
    else if !CanMoveTask(board, from.value, to.value) then Drop(None, Reaction(st, None))
    else
      match FindTask(board.columns, activeId)
      case None => Drop(None, Reaction(st, None))
      case Some(task) =>
        var request := MoveRequest(board.id, from.value, task.id, to.value, 0);
        var emitted := if requestFails
          then Some(board.(columns := Rollback(board.columns, from.value, to.value, task, activeId)))
          else None;
        Drop(Some(request), Reaction(st.(activeTask := None), emitted))
  }

  /** The task sits once, last, in the column if it has the origin id, and not at all otherwise. */
  ghost predicate LastInOriginColumn(c: Column, task: Task, from: string) {
    if c.id == from then
      && |c.tasks| > 0
      && c.tasks[|c.tasks| - 1] == task
      && CountId(c.tasks[..|c.tasks| - 1], task.id) == 0
    else CountId(c.tasks, task.id) == 0
  }

  /** The task sits once, last, in each column with the origin id and nowhere else. */
  ghost predicate LastInOrigin(columns: seq<Column>, task: Task, from: string) {
    forall i :: 0 <= i < |columns| ==> LastInOriginColumn(columns[i], task, from)
  }

  /** One column of `RollbackUndoesPreview`: previewed, then rolled back, it is unchanged. */
  lemma RestoreColumn(c: Column, task: Task, from: string, to: string)
    requires from != to
    requires LastInOriginColumn(c, task, from)
    ensures
      var p := PreviewColumn(c, task, to);
      c == if p.id == to then p.(tasks := WithoutTask(p.tasks, task.id))
        else if p.id == from then p.(tasks := p.tasks + [task])
        else p
  {
    if c.id == to {
      CountIdZero(c.tasks, task.id);
      WithoutAbsentTask(c.tasks, task.id);
      WithoutTaskIdempotent(c.tasks, task.id);
    } else if c.id == from {
      var n := |c.tasks|;
      var front := c.tasks[..n - 1];
      assert c.tasks == front + [task];
      WithoutTaskAppend(front, task, task.id);
      CountIdZero(front, task.id);
      WithoutAbsentTask(front, task.id);
    } else {
      CountIdZero(c.tasks, task.id);
      WithoutAbsentTask(c.tasks, task.id);
    }
  }

  /**
   * Rollback undoes the preview only when the dragged task was last in its origin column:
   * the task goes back to the end of that column, not to its former place.
   */
  lemma RollbackUndoesPreview(columns: seq<Column>, task: Task, from: string, to: string)
    requires from != to
    requires LastInOrigin(columns, task, from)
    ensures Rollback(Preview(columns, task, to), from, to, task, task.id) == columns
  {
    var p := Preview(columns, task, to);
    var r := Rollback(p, from, to, task, task.id);
    forall i | 0 <= i < |columns| ensures r[i] == columns[i] {
      RestoreColumn(columns[i], task, from, to);
    }
  }

  /** A task that was not last comes back at the end of its column: the order differs. */
  lemma RollbackReordersOrigin()
    ensures
      var a := Task("a", "A", None, None, None, None, None, None);
      var b := Task("b", "B", None, None, None, None, None, None);
      var columns := [Column("todo", "To Do", [a, b]), Column("done", "Done", [])];
      Rollback(Preview(columns, a, "done"), "todo", "done", a, "a")
        == [Column("todo", "To Do", [b, a]), Column("done", "Done", [])]
  {
    var a := Task("a", "A", None, None, None, None, None, None);
    var b := Task("b", "B", None, None, None, None, None, None);
    var columns := [Column("todo", "To Do", [a, b]), Column("done", "Done", [])];
    var p := Preview(columns, a, "done");
    assert WithoutTask([a, b], "a") == [b] by {
      assert [a, b][1..] == [b];
      assert [b][1..] == [];
    }
    assert p[0].tasks == [b];
    assert p[1].tasks == [a];
    assert WithoutTask([a], "a") == [] by {
      assert [a][1..] == [];
    }
    var r := Rollback(p, "todo", "done", a, "a");
    assert r[0] == Column("todo", "To Do", [b, a]);
    assert r[1] == Column("done", "Done", []);
  }

  /** `handleAddColumn`: the created column appended; nothing on failure. */
  function AddColumn(board: Board, created: Option<Column>): (r: Option<Board>)
    ensures r.Some? <==> created.Some?
    ensures r.Some? ==> r.value == board.(columns := board.columns + [created.value])
  {
    if created.Some? then Some(board.(columns := board.columns + [created.value])) else None
  }

  /** `handleUpdateColumn`: every column with the id replaced by the returned one; nothing on failure. */
  function UpdateColumn(board: Board, columnId: string, updated: Option<Column>): (r: Option<Board>)
    ensures r.Some? <==> updated.Some?
    ensures r.Some? ==>
      && r.value == board.(columns := r.value.columns)
      && |r.value.columns| == |board.columns|
      && forall i :: 0 <= i < |board.columns| ==>
           r.value.columns[i] == if board.columns[i].id == columnId then updated.value else board.columns[i]
  {
    if updated.None? then None
    else
      Some(board.(columns := seq(|board.columns|, i requires 0 <= i < |board.columns| =>
        if board.columns[i].id == columnId then updated.value else board.columns[i])))
  }

  /** `columns.filter((col) => col.id !== id)`. */
  function WithoutColumn(columns: seq<Column>, id: string): (r: seq<Column>)
    ensures forall c :: c in r ==> c in columns && c.id != id
    ensures forall c :: c in columns && c.id != id ==> c in r
    ensures |r| == |columns| - ColumnsWithId(columns, id)
  {
    if |columns| == 0 then []
    else if columns[0].id == id then WithoutColumn(columns[1..], id)
    else [columns[0]] + WithoutColumn(columns[1..], id)
  }

  /** `handleDeleteColumn`: the columns with the id dropped, the rest in order; nothing on failure. */
  function DeleteColumn(board: Board, columnId: string, deleted: bool): (r: Option<Board>)
    ensures r.Some? <==> deleted
    ensures r.Some? ==> r.value == board.(columns := WithoutColumn(board.columns, columnId))
  {
    if deleted then Some(board.(columns := WithoutColumn(board.columns, columnId))) else None
  }

  /** Two lists that differ only in columns carrying the id filter to the same list. */
  lemma {:induction false} WithoutColumnAgrees(a: seq<Column>, b: seq<Column>, id: string)
    requires |a| == |b|
    requires forall i :: 0 <= i < |a| ==> (a[i].id == id <==> b[i].id == id)
    requires forall i :: 0 <= i < |a| && a[i].id != id ==> a[i] == b[i]
    ensures WithoutColumn(a, id) == WithoutColumn(b, id)
  {
    if |a| > 0 {
      assert forall i :: 0 <= i < |a| - 1 ==> a[1..][i] == a[i + 1] && b[1..][i] == b[i + 1];
      WithoutColumnAgrees(a[1..], b[1..], id);
    }
  }

  /** Updating a column and then deleting it is the same as deleting it straight away. */
  lemma UpdateThenDeleteColumn(board: Board, columnId: string, updated: Column)
    requires updated.id == columnId
    ensures DeleteColumn(UpdateColumn(board, columnId, Some(updated)).value, columnId, true)
      == DeleteColumn(board, columnId, true)
  {
    var u := UpdateColumn(board, columnId, Some(updated)).value;
    WithoutColumnAgrees(u.columns, board.columns, columnId);
  }

  /** Filtering after an append filters the prefix and then the appended column. */
  lemma {:induction false} WithoutColumnAppend(columns: seq<Column>, c: Column, id: string)
    ensures WithoutColumn(columns + [c], id) == WithoutColumn(columns, id) + (if c.id == id then [] else [c])
  {
    if |columns| == 0 {
      assert columns + [c] == [c];
    } else {
      assert (columns + [c])[1..] == columns[1..] + [c];
      WithoutColumnAppend(columns[1..], c, id);
    }
  }

  /** Columns that lack the id are left alone. */
  lemma {:induction false} WithoutAbsentColumn(columns: seq<Column>, id: string)
    requires forall d :: d in columns ==> d.id != id
    ensures WithoutColumn(columns, id) == columns
  {
    if |columns| > 0 {
      assert columns[0] in columns;
      assert forall d :: d in columns[1..] ==> d in columns;
      WithoutAbsentColumn(columns[1..], id);
      assert columns == [columns[0]] + columns[1..];
    }
  }

  /** Deleting a column just added (under an id no other column has) gives the board back. */
  lemma DeleteAfterAdd(columns: seq<Column>, c: Column)
    requires forall d :: d in columns ==> d.id != c.id
    ensures WithoutColumn(columns + [c], c.id) == columns
  {
    WithoutColumnAppend(columns, c, c.id);
    WithoutAbsentColumn(columns, c.id);
  }

  /**
   * `handleDragStart` as evidently intended: as `DragStart`, but the last-hover ref is
   * cleared, so the first hover of a new drag always produces a preview.
   */
  function DragStartFresh(board: Board, st: DragState, activeId: string): (r: DragState)
    ensures r == DragStart(board, st, activeId).(lastOverColumnId := None)
    ensures r.lastOverColumnId.None?
  {
    DragStart(board, st, activeId).(lastOverColumnId := None)
  }

  /** What the user sees and what the component holds during a drag. */
  datatype Screen = Screen(board: Board, st: DragState)

  /** One hover: the parent re-renders with the emitted preview, if there is one. */
  function Hover(sc: Screen, over: Option<string>): (r: Screen)
    ensures var re := DragOver(sc.board, sc.st, over);
      r.st == re.state && (re.emitted.None? ==> r.board == sc.board)
      && (re.emitted.Some? ==> r.board == re.emitted.value)
  {
    var re := DragOver(sc.board, sc.st, over);
    Screen(if re.emitted.Some? then re.emitted.value else sc.board, re.state)
  }

  /** The hovers of one drag, in order. */
  function HoverAll(sc: Screen, overs: seq<Option<string>>): Screen
    decreases |overs|
  {
    if |overs| == 0 then sc else HoverAll(Hover(sc, overs[0]), overs[1..])
  }

  /** Some column with the id ends with the task. */
  ghost predicate ColumnShows(columns: seq<Column>, id: string, task: Task) {
    exists i :: 0 <= i < |columns| && columns[i].id == id && |columns[i].tasks| > 0
      && columns[i].tasks[|columns[i].tasks| - 1] == task
  }

  /** The remembered hover target is shown holding the dragged task. */
  ghost predicate HoverShown(sc: Screen) {
    sc.st.lastOverColumnId.Some? ==>
      sc.st.activeTask.Some? && ColumnShows(sc.board.columns, sc.st.lastOverColumnId.value, sc.st.activeTask.value)
  }

  lemma HoverKeepsShown(sc: Screen, over: Option<string>)
    requires HoverShown(sc)
    ensures HoverShown(Hover(sc, over))
  {
    var re := DragOver(sc.board, sc.st, over);
    if re.emitted.Some? {
      var task := sc.st.activeTask.value;
      var c := FindColumnByTaskOrColumnId(sc.board.columns, over.value).value;
      var i :| 0 <= i < |sc.board.columns| && sc.board.columns[i] == c;
      var shown := Preview(sc.board.columns, task, c.id);
      assert shown[i] == PreviewColumn(sc.board.columns[i], task, c.id);
    }
  }

  lemma {:induction false} HoverAllKeepsShown(sc: Screen, overs: seq<Option<string>>)
    requires HoverShown(sc)
    ensures HoverShown(HoverAll(sc, overs))
    decreases |overs|
  {
    if |overs| > 0 {
      HoverKeepsShown(sc, overs[0]);
      HoverAllKeepsShown(Hover(sc, overs[0]), overs[1..]);
    }
  }

  /**
   * With the hover ref cleared at drag start, whenever the drop requests a move, the board
   * on screen shows the dragged task at the end of the requested target column.
   */
  lemma FreshDragShowsTarget(board: Board, st: DragState, activeId: string, overs: seq<Option<string>>)
    ensures
      var sc := HoverAll(Screen(board, DragStartFresh(board, st, activeId)), overs);
      var d := DragEnd(sc.board, sc.st, activeId, false);
      d.request.Some? ==>
        && sc.st.activeTask.Some?
        && ColumnShows(sc.board.columns, d.request.value.targetColumnId, sc.st.activeTask.value)
  {
    HoverAllKeepsShown(Screen(board, DragStartFresh(board, st, activeId)), overs);
  }

  /** Two plain tasks and a two-column board without rules, for the example below. */
  const TASK_A: Task := Task("a", "A", None, None, None, None, None, None)
  const TASK_B: Task := Task("b", "B", None, None, None, None, None, None)
  const SAMPLE: Board := Board("1", "P", [Column("todo", "To Do", [TASK_A, TASK_B]), Column("done", "Done", [])], None, None)
  const SAMPLE_MOVED: seq<Column> := [Column("todo", "To Do", [TASK_B]), Column("done", "Done", [TASK_A])]

  /** The first drag starts on "a" in "todo". */
  lemma FirstStart()
    ensures DragStart(SAMPLE, DragState(None, None, None, None), "a")
      == DragState(Some(TASK_A), None, None, Some("todo"))
  {
    assert HasTask(SAMPLE.columns[0], "a");
    assert FindTaskIn([TASK_A, TASK_B], "a") == Some(TASK_A);
  }

  /** Hovering "done" shows "a" moved there. */
  lemma FirstHover()
    ensures HoverAll(Screen(SAMPLE, DragState(Some(TASK_A), None, None, Some("todo"))), [Some("done")])
      == Screen(SAMPLE.(columns := SAMPLE_MOVED), DragState(Some(TASK_A), Some("done"), Some("done"), Some("todo")))
  {
    var a, b := TASK_A, TASK_B;
    var cols := SAMPLE.columns;
    var st := DragState(Some(TASK_A), None, None, Some("todo"));
    assert FindColumnById(cols, "done") == Some(cols[1]);
    assert WithoutTask([a, b], "a") == [b] by {
      assert [a, b][1..] == [b];
      assert [b][1..] == [];
    }
    var p := Preview(cols, a, "done");
    assert p[0] == SAMPLE_MOVED[0] && p[1] == SAMPLE_MOVED[1];
    assert p == SAMPLE_MOVED;
    assert HoverAll(Screen(SAMPLE, st), [Some("done")]) == Hover(Screen(SAMPLE, st), Some("done"));
  }

  /** Dropping "a" requests the move to "done" and keeps "done" remembered. */
  lemma FirstDrop()
    ensures
      var d := DragEnd(SAMPLE.(columns := SAMPLE_MOVED),
                       DragState(Some(TASK_A), Some("done"), Some("done"), Some("todo")), "a", false);
      && d.request == Some(MoveRequest("1", "todo", "a", "done", 0))
      && d.reaction.state.lastOverColumnId == Some("done")
  {
    assert FindTaskIn([TASK_B], "a") == None;
    assert FindTaskIn([TASK_A], "a") == Some(TASK_A);
    assert FindTask(SAMPLE_MOVED, "a") == Some(TASK_A);
  }

  /** The first drag: "a" hovers over "done", is shown there and is requested there. */
  lemma FirstDrag()
    ensures
      var sc := HoverAll(Screen(SAMPLE, DragStart(SAMPLE, DragState(None, None, None, None), "a")), [Some("done")]);
      var d := DragEnd(sc.board, sc.st, "a", false);
      && sc.board == SAMPLE.(columns := SAMPLE_MOVED)
      && d.request == Some(MoveRequest("1", "todo", "a", "done", 0))
      && d.reaction.state.lastOverColumnId == Some("done")
  {
    FirstStart();
    FirstHover();
    FirstDrop();
  }

  /** The second drag: with "done" still remembered, "b" hovering there gets no preview, yet is requested there. */
  lemma SecondDrag(st: DragState)
    requires st.lastOverColumnId == Some("done")
    ensures
      var board := SAMPLE.(columns := SAMPLE_MOVED);
      var sc := HoverAll(Screen(board, DragStart(board, st, "b")), [Some("done")]);
      && sc.board == board
      && DragEnd(sc.board, sc.st, "b", false).request == Some(MoveRequest("1", "todo", "b", "done", 0))
  {
    var board := SAMPLE.(columns := SAMPLE_MOVED);
    var cols := SAMPLE_MOVED;
    var b := TASK_B;
    assert HasTask(cols[0], "b");
    assert FindTaskIn([b], "b") == Some(b);
    var s2 := DragStart(board, st, "b");
    assert s2.activeTask == Some(b) && s2.originalColumnId == Some("todo");
    assert FindColumnById(cols, "done") == Some(cols[1]);
    var sc2 := Hover(Screen(board, s2), Some("done"));
    assert sc2 == Screen(board, s2);
    assert HoverAll(Screen(board, s2), [Some("done")]) == sc2;
    assert FindTask(cols, "b") == Some(b);
  }

  /**
   * As written the hover ref survives from one drag to the next: after "a" is dragged to
   * "done", dragging "b" over "done" shows no preview, yet the drop still asks the server
   * to move "b" there while the screen keeps it in "todo".
   */
  lemma StaleHoverSkipsPreview()
    ensures
      var first := HoverAll(Screen(SAMPLE, DragStart(SAMPLE, DragState(None, None, None, None), "a")), [Some("done")]);
      var between := DragEnd(first.board, first.st, "a", false).reaction.state;
      var second := HoverAll(Screen(first.board, DragStart(first.board, between, "b")), [Some("done")]);
      var d := DragEnd(second.board, second.st, "b", false);
      && d.request == Some(MoveRequest("1", "todo", "b", "done", 0))
      && !ColumnShows(second.board.columns, "done", TASK_B)
  {
    FirstDrag();
    var first := HoverAll(Screen(SAMPLE, DragStart(SAMPLE, DragState(None, None, None, None), "a")), [Some("done")]);
    var between := DragEnd(first.board, first.st, "a", false).reaction.state;
    SecondDrag(between);
    var cols := SAMPLE_MOVED;
    assert cols[1].tasks[|cols[1].tasks| - 1] == TASK_A;
  }
}
