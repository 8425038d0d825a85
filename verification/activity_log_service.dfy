/** The audit trail: writes append one entry, reads filter by board or by task. */
module ActivityLogService {
  import opened Wrappers
  import opened Entities

  /** `createLog`: a free-form entry whose ids may be absent, stored as given. */
  function CreateLog(
    s: Store, taskId: Option<string>, boardId: Option<string>,
    action: string, description: string, now: int): (r: Step<LogEntry>)
    ensures r.store == s.(log := s.log + [r.result])
    ensures && r.result.taskId == taskId && r.result.boardId == boardId
            && r.result.action == action && r.result.description == description
    ensures r.result.timestamp == now
  {
    var e := LogEntry(taskId, boardId, action, description, now);
    Step(s.(log := s.log + [e]), e)
  }

  /**
   * `logActivity`: the entry the services write after a change, always with a board
   * and with a task only when one is passed.
   */
  function LogActivity(
    s: Store, boardId: string, action: string, description: string,
    now: int, taskId: Option<string> := None): (r: Step<LogEntry>)
    ensures r.store == s.(log := s.log + [r.result])
    ensures && r.result.boardId == Some(boardId) && r.result.taskId == taskId
            && r.result.action == action && r.result.description == description
    ensures r.result.timestamp == now
  {
    var e := LogEntry(taskId, Some(boardId), action, description, now);
    Step(s.(log := s.log + [e]), e)
  }

  /**
   * `getLogsByBoardId`: the entries of one board. The repository query names no order;
   * the model lists them in the order they were written.
   */
  function LogsByBoard(log: seq<LogEntry>, boardId: string): (r: seq<LogEntry>)
    ensures forall e :: e in r ==> e in log && e.boardId == Some(boardId)
    ensures forall e :: e in log && e.boardId == Some(boardId) ==> e in r
    ensures |r| <= |log|
  {
    if |log| == 0 then []
    else
      var rest := LogsByBoard(log[..|log| - 1], boardId);
      var e := log[|log| - 1];
      assert log == log[..|log| - 1] + [e];
      if e.boardId == Some(boardId) then rest + [e] else rest
  }

  /**
   * `getLogsByTaskId`: the entries of one task. The repository query names no order;
   * the model lists them in the order they were written.
   */
  function LogsByTask(log: seq<LogEntry>, taskId: string): (r: seq<LogEntry>)
    ensures forall e :: e in r ==> e in log && e.taskId == Some(taskId)
    ensures forall e :: e in log && e.taskId == Some(taskId) ==> e in r
    ensures |r| <= |log|
  {
    if |log| == 0 then []
    else
      var rest := LogsByTask(log[..|log| - 1], taskId);
      var e := log[|log| - 1];
      assert log == log[..|log| - 1] + [e];
      if e.taskId == Some(taskId) then rest + [e] else rest
  }

  /**
   * A `logActivity` call shows up at the end of its board's listing and, when it names
   * a task, at the end of that task's listing; no other listing changes.
   */
  lemma LogActivityListed(
    s: Store, boardId: string, action: string, description: string,
    now: int, taskId: Option<string>, b: string, t: string)
    ensures var r := LogActivity(s, boardId, action, description, now, taskId);
      && LogsByBoard(r.store.log, b)
         == LogsByBoard(s.log, b) + (if b == boardId then [r.result] else [])
      && LogsByTask(r.store.log, t)
         == LogsByTask(s.log, t) + (if taskId == Some(t) then [r.result] else [])
  {
    var r := LogActivity(s, boardId, action, description, now, taskId);
    assert r.store.log[..|r.store.log| - 1] == s.log;
  }

  /**
   * Order aside, a board's listing holds each of the board's entries as often as the log
   * does, and no other entry.
   */
  lemma {:induction false} LogsByBoardCounts(log: seq<LogEntry>, boardId: string, e: LogEntry)
    ensures multiset(LogsByBoard(log, boardId))[e]
      == if e.boardId == Some(boardId) then multiset(log)[e] else 0
  {
    if |log| > 0 {
      var init := log[..|log| - 1];
      LogsByBoardCounts(init, boardId, e);
      assert log == init + [log[|log| - 1]];
      assert multiset(log) == multiset(init) + multiset{log[|log| - 1]};
    }
  }

  /**
   * Order aside, a task's listing holds each of the task's entries as often as the log
   * does, and no other entry.
   */
  lemma {:induction false} LogsByTaskCounts(log: seq<LogEntry>, taskId: string, e: LogEntry)
    ensures multiset(LogsByTask(log, taskId))[e]
      == if e.taskId == Some(taskId) then multiset(log)[e] else 0
  {
    if |log| > 0 {
      var init := log[..|log| - 1];
      LogsByTaskCounts(init, taskId, e);
      assert log == init + [log[|log| - 1]];
      assert multiset(log) == multiset(init) + multiset{log[|log| - 1]};
    }
  }

  /**
   * `LogActivityListed` without the listing order: a `logActivity` call adds its entry
   * once to its board's listing and, when it names a task, once to that task's listing.
   */
  lemma LogActivityCounted(
    s: Store, boardId: string, action: string, description: string,
    now: int, taskId: Option<string>, b: string, t: string)
    ensures var r := LogActivity(s, boardId, action, description, now, taskId);
      && multiset(LogsByBoard(r.store.log, b))
         == multiset(LogsByBoard(s.log, b)) + (if b == boardId then multiset{r.result} else multiset{})
      && multiset(LogsByTask(r.store.log, t))
         == multiset(LogsByTask(s.log, t)) + (if taskId == Some(t) then multiset{r.result} else multiset{})
  {
    LogActivityListed(s, boardId, action, description, now, taskId, b, t);
  }

  /** Entries of a board already listed stay listed, in place, as the log grows. */
  lemma {:induction false} LogsByBoardPrefix(log: seq<LogEntry>, more: seq<LogEntry>, b: string)
    ensures var before := LogsByBoard(log, b);
      var after := LogsByBoard(log + more, b);
      |before| <= |after| && after[..|before|] == before
    decreases |more|
  {
    if |more| > 0 {
      var longer := log + more[..|more| - 1];
      LogsByBoardPrefix(log, more[..|more| - 1], b);
      assert (log + more)[..|log + more| - 1] == longer;
      var mid := LogsByBoard(longer, b);
      var after := LogsByBoard(log + more, b);
      assert after == mid || after == mid + [more[|more| - 1]];
      assert after[..|mid|] == mid;
    } else {
      assert log + more == log;
    }
  }
}
