/**
 * Task documents: creation at the end of a column, field updates, deletion, and the move
 * between columns. The move consults no workflow rule.
 */
module TaskService {
  import opened Wrappers
  import opened Numbers
  import opened Entities
  import ActivityLogService

  /** `getTaskById`: the stored task, or null. */
  function GetTaskById(s: Store, taskId: string): (r: Option<Task>)
    ensures r.Some? <==> taskId in s.tasks
    ensures r.Some? ==> r.value == s.tasks[taskId]
  {
    if taskId in s.tasks then Some(s.tasks[taskId]) else None
  }

  /**
   * Position-by-count: the explicit position when one is given, else the number of tasks
   * stored in the column at that moment, cut to a Kotlin `Int`.
   */
  function NextTaskPosition(s: Store, columnId: string, position: Option<Int32>): (p: Int32)
    ensures position.Some? ==> p == position.value
    ensures position.None? && CountTasksInColumn(s.tasks, columnId) < TWO_POW_31
      ==> p == CountTasksInColumn(s.tasks, columnId)
  {
    if position.Some? then position.value else ToInt32(CountTasksInColumn(s.tasks, columnId))
  }

  /** The due date as stored: the given `Long` rendered in decimal. */
  function DueDateText(dueDate: Option<Int64>): (r: Option<string>)
    ensures r.Some? <==> dueDate.Some?
    ensures r.Some? ==> IsDecimal(r.value) && Parse(r.value) == dueDate.value
  {
    if dueDate.Some? then ParseShow(dueDate.value); Some(Show(dueDate.value)) else None
  }

  /**
   * `createTask`: throws when the column, then the board, is missing. Otherwise saves a task
   * with priority "medium", status "todo" and no tags unless given, positioned by count,
   * and logs `TASK_CREATED` with the saved id.
   */
  function CreateTask(
    s: Store, newId: string, boardId: string, columnId: string, title: string,
    description: Option<string>, assignee: Option<string>, priority: Option<string>,
    dueDate: Option<Int64>, tags: Option<seq<string>>, position: Option<Int32>, now: int)
    : (r: Created<Task>)
    requires newId !in s.tasks
    ensures r.IllegalArgument? <==> columnId !in s.columns || boardId !in s.boards
    ensures r.IllegalArgument? && columnId !in s.columns ==>
      r.message == "Column not found with id: " + columnId
    ensures r.IllegalArgument? && columnId in s.columns ==>
      r.message == "Board not found with id: " + boardId
    ensures r.Created? ==>
      var t := r.value;
      && t.id == newId && t.boardId == boardId && t.columnId == columnId && t.title == title
      && t.description == description && t.assignee == assignee
      && t.priority == Some(if priority.Some? then priority.value else "medium")
      && t.status == Some("todo")
      && t.dueDate == DueDateText(dueDate)
      && t.tags == Some(if tags.Some? then tags.value else [])
      && t.position == NextTaskPosition(s, columnId, position)
      && t.activityLog == None && t.createdAt == Some(now) && t.updatedAt == Some(now)
      && r.store.tasks == s.tasks[newId := t]
      && r.store.columns == s.columns && r.store.boards == s.boards
      && r.store.log == s.log + [LogEntry(Some(newId), Some(boardId), "TASK_CREATED",
           "Task '" + title + "' was created in column '" + s.columns[columnId].title + "'", now)]
  {
    if columnId !in s.columns then IllegalArgument("Column not found with id: " + columnId)
    else if boardId !in s.boards then IllegalArgument("Board not found with id: " + boardId)
    else
      var column := s.columns[columnId];
      var task := Task(newId, boardId, columnId, title, description, Some(priority.GetOr("medium")),
                       assignee, Some("todo"), DueDateText(dueDate), Some(tags.GetOr([])),
                       NextTaskPosition(s, columnId, position), None, Some(now), Some(now));
      var saved := s.(tasks := s.tasks[newId := task]);
      var logged := ActivityLogService.LogActivity(saved, boardId, "TASK_CREATED",
        "Task '" + title + "' was created in column '" + column.title + "'", now, Some(newId));
      Created(logged.store, task)
  }

  /** The task's column and board both exist: the lookups update, delete and move share. */
  predicate Resolvable(s: Store, t: Task) {
    t.columnId in s.columns && t.boardId in s.boards
  }

  /**
   * The task `updateTask` saves: each given field replaces the stored one and the others
   * are kept; id, board, column, position, embedded log and creation time never change.
   */
  function PatchTask(
    prev: Task, title: Option<string>, description: Option<string>,
    assignee: Option<string>, priority: Option<string>, status: Option<string>,
    dueDate: Option<Int64>, tags: Option<seq<string>>, now: int): (t: Task)
    ensures (title.Some? ==> t.title == title.value) && (title.None? ==> t.title == prev.title)
    ensures (description.Some? ==> t.description == description)
    ensures (description.None? ==> t.description == prev.description)
    ensures (assignee.Some? ==> t.assignee == assignee) && (assignee.None? ==> t.assignee == prev.assignee)
    ensures (priority.Some? ==> t.priority == priority) && (priority.None? ==> t.priority == prev.priority)
    ensures (status.Some? ==> t.status == status) && (status.None? ==> t.status == prev.status)
    ensures (dueDate.Some? ==> t.dueDate == DueDateText(dueDate))
    ensures (dueDate.None? ==> t.dueDate == prev.dueDate)
    ensures (tags.Some? ==> t.tags == tags) && (tags.None? ==> t.tags == prev.tags)
    ensures t.(title := prev.title, description := prev.description, assignee := prev.assignee,
               priority := prev.priority, status := prev.status, dueDate := prev.dueDate,
               tags := prev.tags, updatedAt := prev.updatedAt) == prev
    ensures t.updatedAt == Some(now)
  {
    Task(prev.id, prev.boardId, prev.columnId, title.GetOr(prev.title),
         if description.Some? then description else prev.description,
         if priority.Some? then priority else prev.priority,
         if assignee.Some? then assignee else prev.assignee,
         if status.Some? then status else prev.status,
         if dueDate.Some? then DueDateText(dueDate) else prev.dueDate,
         if tags.Some? then tags else prev.tags,
         prev.position, prev.activityLog, prev.createdAt, Some(now))
  }

  /**
   * `updateTask`: null when the task, its column or its board is missing. Otherwise saves
   * the patched task and logs `TASK_UPDATED`.
   */
  function UpdateTask(
    s: Store, taskId: string, title: Option<string>, description: Option<string>,
    assignee: Option<string>, priority: Option<string>, status: Option<string>,
    dueDate: Option<Int64>, tags: Option<seq<string>>, now: int): (r: Step<Option<Task>>)
    ensures r.result.None? <==> taskId !in s.tasks || !Resolvable(s, s.tasks[taskId])
    ensures r.result.None? ==> r.store == s
    ensures r.result.Some? ==>
      var prev := s.tasks[taskId];
      var t := r.result.value;
      && t == PatchTask(prev, title, description, assignee, priority, status, dueDate, tags, now)
      && r.store.tasks == s.tasks[taskId := t]
      && r.store.columns == s.columns && r.store.boards == s.boards
      && r.store.log == s.log + [LogEntry(Some(taskId), Some(prev.boardId), "TASK_UPDATED",
           "Task '" + t.title + "' was updated in column '" + s.columns[prev.columnId].title + "'", now)]
  {
    if taskId !in s.tasks then Step(s, None)
    else
      var prev := s.tasks[taskId];
      if !Resolvable(s, prev) then Step(s, None)
      else
        var column := s.columns[prev.columnId];
        var t := PatchTask(prev, title, description, assignee, priority, status, dueDate, tags, now);
        var saved := s.(tasks := s.tasks[taskId := t]);
        var logged := ActivityLogService.LogActivity(saved, prev.boardId, "TASK_UPDATED",
          "Task '" + t.title + "' was updated in column '" + column.title + "'", now, Some(taskId));
        Step(logged.store, Some(t))
  }

  /**
   * `deleteTask`: false when the task, its column or its board is missing. Otherwise removes
   * exactly that task, logs `TASK_DELETED` and returns true.
   */
  function DeleteTask(s: Store, taskId: string, now: int): (r: Step<bool>)
    ensures r.result <==> taskId in s.tasks && Resolvable(s, s.tasks[taskId])
    ensures !r.result ==> r.store == s
    ensures r.result ==>
      var prev := s.tasks[taskId];
      && r.store.tasks == s.tasks - {taskId}
      && r.store.columns == s.columns && r.store.boards == s.boards
      && r.store.log == s.log + [LogEntry(Some(taskId), Some(prev.boardId), "TASK_DELETED",
           "Task '" + prev.title + "' was deleted from column '" + s.columns[prev.columnId].title + "'", now)]
  {
    if taskId !in s.tasks then Step(s, false)
    else
      var prev := s.tasks[taskId];
      if !Resolvable(s, prev) then Step(s, false)
      else
        var column := s.columns[prev.columnId];
        var removed := s.(tasks := s.tasks - {taskId});
        var logged := ActivityLogService.LogActivity(removed, prev.boardId, "TASK_DELETED",
          "Task '" + prev.title + "' was deleted from column '" + column.title + "'", now, Some(taskId));
        Step(logged.store, true)
  }

  /**
   * `moveTask`: null, with nothing saved or logged, when the task, its current column, the
   * target column or its board is missing. Otherwise the task gets the target column and a
   * position (the explicit one, else the target's task count read before the save), every
   * other field but the update time is copied, and one `TASK_MOVED` entry for the task's
   * board follows the save. There is no workflow check and no same-column case.
   */
  function MoveTask(s: Store, taskId: string, targetColumnId: string, newPosition: Option<Int32>, now: int)
    : (r: Step<Option<Task>>)
    ensures r.result.None? <==>
      || taskId !in s.tasks
      || s.tasks[taskId].columnId !in s.columns
      || targetColumnId !in s.columns
      || s.tasks[taskId].boardId !in s.boards
    ensures r.result.None? ==> r.store == s
    ensures r.result.Some? ==>
      var prev := s.tasks[taskId];
      var t := r.result.value;
      && t.columnId == targetColumnId
      && t.position == NextTaskPosition(s, targetColumnId, newPosition)
      && t.updatedAt == Some(now)
      && t.(columnId := prev.columnId, position := prev.position, updatedAt := prev.updatedAt) == prev
      && r.store.tasks == s.tasks[taskId := t]
      && r.store.columns == s.columns && r.store.boards == s.boards
      && r.store.log == s.log + [LogEntry(Some(taskId), Some(prev.boardId), "TASK_MOVED",
           "Task '" + prev.title + "' was moved from '" + s.columns[prev.columnId].title
           + "' to '" + s.columns[targetColumnId].title + "'", now)]
  {
    if taskId !in s.tasks then Step(s, None)
    else
      var prev := s.tasks[taskId];
      if prev.columnId !in s.columns || targetColumnId !in s.columns || prev.boardId !in s.boards
      then Step(s, None)
      else
        var source := s.columns[prev.columnId];
        var target := s.columns[targetColumnId];
        var t := Task(prev.id, prev.boardId, targetColumnId, prev.title, prev.description,
                      prev.priority, prev.assignee, prev.status, prev.dueDate, prev.tags,
                      NextTaskPosition(s, targetColumnId, newPosition),
                      prev.activityLog, prev.createdAt, Some(now));
        var saved := s.(tasks := s.tasks[taskId := t]);
        var logged := ActivityLogService.LogActivity(saved, prev.boardId, "TASK_MOVED",
          "Task '" + t.title + "' was moved from '" + source.title + "' to '" + target.title + "'",
          now, Some(taskId));
        Step(logged.store, Some(t))
  }

  /** `updateTaskPosition`: null when the task is missing; otherwise only the position changes, unlogged. */
  function UpdateTaskPosition(s: Store, taskId: string, newPosition: Int32, now: int)
    : (r: Step<Option<Task>>)
    ensures r.result.None? <==> taskId !in s.tasks
    ensures r.result.None? ==> r.store == s
    ensures r.result.Some? ==>
      && r.result.value == s.tasks[taskId].(position := newPosition, updatedAt := Some(now))
      && r.store == s.(tasks := s.tasks[taskId := r.result.value])
  {
    if taskId !in s.tasks then Step(s, None)
    else
      var prev := s.tasks[taskId];
      var t := Task(prev.id, prev.boardId, prev.columnId, prev.title, prev.description,
                    prev.priority, prev.assignee, prev.status, prev.dueDate, prev.tags,
                    newPosition, prev.activityLog, prev.createdAt, Some(now));
      Step(s.(tasks := s.tasks[taskId := t]), Some(t))
  }

  /**
   * Append-at-end on create: a task created without a position takes the index just past
   * the column's other tasks, which now number one more.
   */
  lemma CreateTaskAtEnd(
    s: Store, newId: string, boardId: string, columnId: string, title: string,
    description: Option<string>, assignee: Option<string>, priority: Option<string>,
    dueDate: Option<Int64>, tags: Option<seq<string>>, now: int)
    requires newId !in s.tasks
    requires columnId in s.columns && boardId in s.boards
    requires CountTasksInColumn(s.tasks, columnId) < TWO_POW_31
    ensures var r := CreateTask(s, newId, boardId, columnId, title, description, assignee,
                                priority, dueDate, tags, None, now);
      && r.Created?
      && r.value.position as int + 1 == CountTasksInColumn(r.store.tasks, columnId)
  {
    var r := CreateTask(s, newId, boardId, columnId, title, description, assignee,
                        priority, dueDate, tags, None, now);
    CountAfterInsert(s.tasks, newId, r.value, columnId);
  }

  /**
   * Append-at-end on move: a task moved from another column without a position lands
   * just past the target's previous tasks; the source column loses one task.
   */
  lemma MoveTaskAtEnd(s: Store, taskId: string, targetColumnId: string, now: int)
    requires taskId in s.tasks && Resolvable(s, s.tasks[taskId]) && targetColumnId in s.columns
    requires s.tasks[taskId].columnId != targetColumnId
    requires CountTasksInColumn(s.tasks, targetColumnId) < TWO_POW_31
    ensures var r := MoveTask(s, taskId, targetColumnId, None, now);
      && r.result.Some?
      && r.result.value.position as int + 1 == CountTasksInColumn(r.store.tasks, targetColumnId)
      && CountTasksInColumn(r.store.tasks, s.tasks[taskId].columnId)
         == CountTasksInColumn(s.tasks, s.tasks[taskId].columnId) - 1
  {
    var r := MoveTask(s, taskId, targetColumnId, None, now);
    CountAfterReplace(s.tasks, taskId, r.result.value, targetColumnId);
    CountAfterReplace(s.tasks, taskId, r.result.value, s.tasks[taskId].columnId);
  }

  /**
   * No same-column case: moving a task to the column it is in still saves and logs, and
   * without a position the task's own presence is counted, so it goes one past the end.
   */
  lemma MoveWithinColumn(s: Store, taskId: string, now: int)
    requires taskId in s.tasks && Resolvable(s, s.tasks[taskId])
    requires CountTasksInColumn(s.tasks, s.tasks[taskId].columnId) < TWO_POW_31
    ensures var c := s.tasks[taskId].columnId;
      var r := MoveTask(s, taskId, c, None, now);
      && r.result.Some?
      && r.result.value.position == CountTasksInColumn(s.tasks, c) >= 1
      && |r.store.log| == |s.log| + 1 && r.store.log[|s.log|].action == "TASK_MOVED"
  {
    var c := s.tasks[taskId].columnId;
    assert taskId in TasksInColumn(s.tasks, c);
  }
}
