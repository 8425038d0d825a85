/**
 * Every state-changing service call as one operation on the store, and the audit
 * discipline they share: the log only grows, by one entry per successful logging call.
 */
module AuditTrail {
  import opened Wrappers
  import opened Numbers
  import opened Entities
  import ActivityLogService
  import BoardService
  import ColumnService
  import TaskService

  datatype Op =
    | CreateBoardOp(newBoardId: string, name: string, boardDescription: Option<string>)
    | UpdateBoardOp(boardId: string, name: string, boardDescription: Option<string>)
    | DeleteBoardOp(boardId: string)
    | CreateColumnOp(newColumnId: string, boardId: string, title: string,
                     description: Option<string>, color: Option<string>, position: Option<Int32>)
    | UpdateColumnOp(columnId: string, newTitle: Option<string>, description: Option<string>,
                     color: Option<string>, position: Option<Int32>)
    | DeleteColumnOp(columnId: string)
    | UpdateColumnPositionOp(columnId: string, newPosition: Int32)
    | CreateTaskOp(newTaskId: string, boardId: string, columnId: string, title: string,
                   description: Option<string>, assignee: Option<string>, priority: Option<string>,
                   dueDate: Option<Int64>, tags: Option<seq<string>>, position: Option<Int32>)
    | UpdateTaskOp(taskId: string, newTitle: Option<string>, description: Option<string>,
                   assignee: Option<string>, priority: Option<string>, status: Option<string>,
                   dueDate: Option<Int64>, tags: Option<seq<string>>)
    | DeleteTaskOp(taskId: string)
    | MoveTaskOp(taskId: string, targetColumnId: string, position: Option<Int32>)
    | UpdateTaskPositionOp(taskId: string, newPosition: Int32)
    | CreateLogOp(logTaskId: Option<string>, logBoardId: Option<string>, action: string, text: string)

  /** A service call stamped with the clock reading it sees. */
  datatype Call = Call(op: Op, now: int)

  /** Creations receive ids the store does not hold yet. */
  predicate FreshIds(s: Store, op: Op) {
    match op
    case CreateBoardOp(id, _, _) => id !in s.boards
    case CreateColumnOp(id, _, _, _, _, _) => id !in s.columns
    case CreateTaskOp(id, _, _, _, _, _, _, _, _, _) => id !in s.tasks
    case _ => true
  }

  /** The operations that write an activity entry when they succeed. */
  predicate WritesLog(op: Op) {
    !(op.CreateBoardOp? || op.UpdateBoardOp? || op.DeleteBoardOp?
      || op.UpdateColumnPositionOp? || op.UpdateTaskPositionOp?)
  }

  /** The store after the call, and whether the call succeeded (non-null, true, or no exception). */
  function Apply(s: Store, c: Call): (r: (Store, bool))
    requires FreshIds(s, c.op)
  {
    var now := c.now;
    match c.op
    case CreateBoardOp(id, name, d) =>
      (BoardService.CreateBoard(s, id, name, d, now).store, true)
    case UpdateBoardOp(id, name, d) =>
      var r := BoardService.UpdateBoard(s, id, name, d, now); (r.store, r.result.Some?)
    case DeleteBoardOp(id) =>
      var r := BoardService.DeleteBoard(s, id); (r.store, r.result)
    case CreateColumnOp(id, b, t, d, col, p) =>
      var r := ColumnService.CreateColumn(s, id, b, t, d, col, p, now);
      if r.Created? then (r.store, true) else (s, false)
    case UpdateColumnOp(id, t, d, col, p) =>
      var r := ColumnService.UpdateColumn(s, id, t, d, col, p, now); (r.store, r.result.Some?)
    case DeleteColumnOp(id) =>
      var r := ColumnService.DeleteColumn(s, id, now); (r.store, r.result)
    case UpdateColumnPositionOp(id, p) =>
      var r := ColumnService.UpdateColumnPosition(s, id, p, now); (r.store, r.result.Some?)
    case CreateTaskOp(id, b, col, t, d, a, pr, due, tags, p) =>
      var r := TaskService.CreateTask(s, id, b, col, t, d, a, pr, due, tags, p, now);
      if r.Created? then (r.store, true) else (s, false)
    case UpdateTaskOp(id, t, d, a, pr, st, due, tags) =>
      var r := TaskService.UpdateTask(s, id, t, d, a, pr, st, due, tags, now); (r.store, r.result.Some?)
    case DeleteTaskOp(id) =>
      var r := TaskService.DeleteTask(s, id, now); (r.store, r.result)
    case MoveTaskOp(id, target, p) =>
      var r := TaskService.MoveTask(s, id, target, p, now); (r.store, r.result.Some?)
    case UpdateTaskPositionOp(id, p) =>
      var r := TaskService.UpdateTaskPosition(s, id, p, now); (r.store, r.result.Some?)
    case CreateLogOp(t, b, a, d) =>
      (ActivityLogService.CreateLog(s, t, b, a, d, now).store, true)
  }

  /**
   * One call: a failure leaves the store as it was; a success keeps every earlier log
   * entry in place and adds exactly one when the operation is a logging one, none otherwise.
   */
  lemma ApplyLog(s: Store, c: Call)
    requires FreshIds(s, c.op)
    ensures var (t, ok) := Apply(s, c);
      && (!ok ==> t == s)
      && |t.log| == |s.log| + (if ok && WritesLog(c.op) then 1 else 0)
      && t.log[..|s.log|] == s.log
  {
    var (t, ok) := Apply(s, c);
    if ok && WritesLog(c.op) {
      assert t.log == s.log + [t.log[|s.log|]] by {
        LoggedOne(s, c);
      }
    } else {
      NotLoggedNone(s, c);
    }
  }

  /** A successful logging call appends exactly one entry. */
  lemma LoggedOne(s: Store, c: Call)
    requires FreshIds(s, c.op)
    requires Apply(s, c).1 && WritesLog(c.op)
    ensures exists e :: Apply(s, c).0.log == s.log + [e]
  {
    var now := c.now;
    match c.op
    case CreateColumnOp(id, b, t, d, col, p) =>
      var r := ColumnService.CreateColumn(s, id, b, t, d, col, p, now);
      assert r.store.log == s.log + [r.store.log[|s.log|]];
    case UpdateColumnOp(id, t, d, col, p) =>
      var r := ColumnService.UpdateColumn(s, id, t, d, col, p, now);
      assert r.store.log == s.log + [r.store.log[|s.log|]];
    case DeleteColumnOp(id) =>
      var r := ColumnService.DeleteColumn(s, id, now);
      assert r.store.log == s.log + [r.store.log[|s.log|]];
    case CreateTaskOp(id, b, col, t, d, a, pr, due, tags, p) =>
      var r := TaskService.CreateTask(s, id, b, col, t, d, a, pr, due, tags, p, now);
      assert r.store.log == s.log + [r.store.log[|s.log|]];
    case UpdateTaskOp(id, t, d, a, pr, st, due, tags) =>
      var r := TaskService.UpdateTask(s, id, t, d, a, pr, st, due, tags, now);
      assert r.store.log == s.log + [r.store.log[|s.log|]];
    case DeleteTaskOp(id) =>
      var r := TaskService.DeleteTask(s, id, now);
      assert r.store.log == s.log + [r.store.log[|s.log|]];
    case MoveTaskOp(id, target, p) =>
      var r := TaskService.MoveTask(s, id, target, p, now);
      assert r.store.log == s.log + [r.store.log[|s.log|]];
    case CreateLogOp(t, b, a, d) =>
      var r := ActivityLogService.CreateLog(s, t, b, a, d, now);
      assert r.store.log == s.log + [r.result];
  }

  /** A failed call, or one that does not log, leaves the log as it was; a failure leaves everything. */
  lemma NotLoggedNone(s: Store, c: Call)
    requires FreshIds(s, c.op)
    requires !(Apply(s, c).1 && WritesLog(c.op))
    ensures Apply(s, c).0.log == s.log
    ensures !Apply(s, c).1 ==> Apply(s, c).0 == s
  {
    var now := c.now;
    match c.op
    case CreateBoardOp(id, name, d) =>
    case UpdateBoardOp(id, name, d) =>
    case DeleteBoardOp(id) =>
    case UpdateColumnPositionOp(id, p) =>
    case UpdateTaskPositionOp(id, p) =>
    case CreateColumnOp(id, b, t, d, col, p) =>
    case UpdateColumnOp(id, t, d, col, p) =>
      var r := ColumnService.UpdateColumn(s, id, t, d, col, p, now);
    case DeleteColumnOp(id) =>
      var r := ColumnService.DeleteColumn(s, id, now);
    case CreateTaskOp(id, b, col, t, d, a, pr, due, tags, p) =>
    case UpdateTaskOp(id, t, d, a, pr, st, due, tags) =>
      var r := TaskService.UpdateTask(s, id, t, d, a, pr, st, due, tags, now);
    case DeleteTaskOp(id) =>
      var r := TaskService.DeleteTask(s, id, now);
    case MoveTaskOp(id, target, p) =>
      var r := TaskService.MoveTask(s, id, target, p, now);
    case CreateLogOp(t, b, a, d) =>
  }

  /** Every call keeps documents stored under their own ids. */
  lemma ApplyKeepsKeys(s: Store, c: Call)
    requires FreshIds(s, c.op) && KeysMatch(s)
    ensures KeysMatch(Apply(s, c).0)
  {
    if c.op.CreateTaskOp? || c.op.UpdateTaskOp? || c.op.DeleteTaskOp? || c.op.MoveTaskOp? || c.op.UpdateTaskPositionOp? {
      TaskOpKeepsKeys(s, c);
    } else if c.op.CreateColumnOp? || c.op.UpdateColumnOp? || c.op.DeleteColumnOp? || c.op.UpdateColumnPositionOp? {
      ColumnOpKeepsKeys(s, c);
    } else if c.op.CreateBoardOp? {
      var r := BoardService.CreateBoard(s, c.op.newBoardId, c.op.name, c.op.boardDescription, c.now);
      assert r.store.boards == s.boards[c.op.newBoardId := r.result];
    }
  }

  lemma TaskOpKeepsKeys(s: Store, c: Call)
    requires FreshIds(s, c.op) && KeysMatch(s)
    requires c.op.CreateTaskOp? || c.op.UpdateTaskOp? || c.op.DeleteTaskOp? || c.op.MoveTaskOp? || c.op.UpdateTaskPositionOp?
    ensures KeysMatch(Apply(s, c).0)
  {
    var now := c.now;
    match c.op
    case CreateTaskOp(id, b, col, t, d, a, pr, due, tags, p) =>
      var r := TaskService.CreateTask(s, id, b, col, t, d, a, pr, due, tags, p, now);
    case UpdateTaskOp(id, t, d, a, pr, st, due, tags) =>
      var r := TaskService.UpdateTask(s, id, t, d, a, pr, st, due, tags, now);
    case DeleteTaskOp(id) =>
      var r := TaskService.DeleteTask(s, id, now);
    case MoveTaskOp(id, target, p) =>
      var r := TaskService.MoveTask(s, id, target, p, now);
    case UpdateTaskPositionOp(id, p) =>
      var r := TaskService.UpdateTaskPosition(s, id, p, now);
  }

  lemma ColumnOpKeepsKeys(s: Store, c: Call)
    requires FreshIds(s, c.op) && KeysMatch(s)
    requires c.op.CreateColumnOp? || c.op.UpdateColumnOp? || c.op.DeleteColumnOp? || c.op.UpdateColumnPositionOp?
    ensures KeysMatch(Apply(s, c).0)
  {
    var now := c.now;
    match c.op
    case CreateColumnOp(id, b, t, d, col, p) =>
      var r := ColumnService.CreateColumn(s, id, b, t, d, col, p, now);
    case UpdateColumnOp(id, t, d, col, p) =>
      var r := ColumnService.UpdateColumn(s, id, t, d, col, p, now);
    case DeleteColumnOp(id) =>
      var r := ColumnService.DeleteColumn(s, id, now);
    case UpdateColumnPositionOp(id, p) =>
      var r := ColumnService.UpdateColumnPosition(s, id, p, now);
  }

  /** A sequence of calls in which every creation gets a fresh id when it runs. */
  predicate ValidRun(s: Store, calls: seq<Call>)
    decreases |calls|
  {
    |calls| == 0 || (FreshIds(s, calls[0].op) && ValidRun(Apply(s, calls[0]).0, calls[1..]))
  }

  function Run(s: Store, calls: seq<Call>): Store
    requires ValidRun(s, calls)
    decreases |calls|
  {
    if |calls| == 0 then s else Run(Apply(s, calls[0]).0, calls[1..])
  }

  /** Over any run the log is append-only and grows by at most one entry per call. */
  lemma {:induction false} RunLog(s: Store, calls: seq<Call>)
    requires ValidRun(s, calls)
    ensures var t := Run(s, calls);
      |s.log| <= |t.log| <= |s.log| + |calls| && t.log[..|s.log|] == s.log
    decreases |calls|
  {
    if |calls| > 0 {
      var mid := Apply(s, calls[0]).0;
      ApplyLog(s, calls[0]);
      RunLog(mid, calls[1..]);
      var t := Run(mid, calls[1..]);
      assert t.log[..|s.log|] == t.log[..|mid.log|][..|s.log|];
    }
  }

  /** Over any run, documents stay stored under their own ids. */
  lemma {:induction false} RunKeepsKeys(s: Store, calls: seq<Call>)
    requires ValidRun(s, calls) && KeysMatch(s)
    ensures KeysMatch(Run(s, calls))
    decreases |calls|
  {
    if |calls| > 0 {
      ApplyKeepsKeys(s, calls[0]);
      RunKeepsKeys(Apply(s, calls[0]).0, calls[1..]);
    }
  }
}
