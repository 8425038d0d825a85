/** Column documents: creation at the end of the board, field updates, repositioning, deletion. */
module ColumnService {
  import opened Wrappers
  import opened Numbers
  import opened Entities
  import ActivityLogService

  /** Colour given to a column created without one. */
  const DEFAULT_COLOR: string := "#3b82f6"

  /** `getColumnById`: the stored column, or null. */
  function GetColumnById(s: Store, columnId: string): (r: Option<Column>)
    ensures r.Some? <==> columnId in s.columns
    ensures r.Some? ==> r.value == s.columns[columnId]
  {
    if columnId in s.columns then Some(s.columns[columnId]) else None
  }

  /** The position a new column takes when none is given: the board's column count. */
  function NextColumnPosition(s: Store, boardId: string, position: Option<Int32>): (p: Int32)
    ensures position.Some? ==> p == position.value
    ensures position.None? && CountColumnsInBoard(s.columns, boardId) < TWO_POW_31
      ==> p == CountColumnsInBoard(s.columns, boardId)
  {
    if position.Some? then position.value else ToInt32(CountColumnsInBoard(s.columns, boardId))
  }

  /**
   * `createColumn`: throws when the board is missing; otherwise saves the column (default
   * colour, position = the board's column count unless given) and logs `COLUMN_CREATED`
   * for that board, with no task.
   */
  function CreateColumn(
    s: Store, newId: string, boardId: string, title: string,
    description: Option<string>, color: Option<string>, position: Option<Int32>, now: int)
    : (r: Created<Column>)
    requires newId !in s.columns
    ensures r.IllegalArgument? <==> boardId !in s.boards
    ensures r.IllegalArgument? ==> r.message == "Board not found with id: " + boardId
    ensures r.Created? ==>
      var c := r.value;
      && c.id == newId && c.boardId == boardId && c.title == title && c.description == description
      && c.color == Some(if color.Some? then color.value else DEFAULT_COLOR)
      && c.position == NextColumnPosition(s, boardId, position)
      && c.createdAt == Some(now) && c.updatedAt == Some(now)
      && r.store.columns == s.columns[newId := c]
      && r.store.tasks == s.tasks && r.store.boards == s.boards
      && r.store.log == s.log + [LogEntry(None, Some(boardId), "COLUMN_CREATED",
           "Column '" + title + "' was created in board '" + s.boards[boardId].name + "'", now)]
  {
    if boardId !in s.boards then IllegalArgument("Board not found with id: " + boardId)
    else
      var board := s.boards[boardId];
      var column := Column(newId, boardId, title, description, Some(color.GetOr(DEFAULT_COLOR)),
                           NextColumnPosition(s, boardId, position), Some(now), Some(now));
      var saved := s.(columns := s.columns[newId := column]);
      var logged := ActivityLogService.LogActivity(saved, boardId, "COLUMN_CREATED",
        "Column '" + title + "' was created in board '" + board.name + "'", now);
      Created(logged.store, column)
  }

  /**
   * `updateColumn`: null when the column or its board is missing. Otherwise each given
   * field replaces the stored one and the others are kept, and `COLUMN_UPDATED` is logged.
   */
  function UpdateColumn(
    s: Store, columnId: string, title: Option<string>, description: Option<string>,
    color: Option<string>, position: Option<Int32>, now: int): (r: Step<Option<Column>>)
    ensures r.result.None? <==>
      columnId !in s.columns || s.columns[columnId].boardId !in s.boards
    ensures r.result.None? ==> r.store == s
    ensures r.result.Some? ==>
      var prev := s.columns[columnId];
      var c := r.result.value;
      && (title.Some? ==> c.title == title.value) && (title.None? ==> c.title == prev.title)
      && (description.Some? ==> c.description == description)
      && (description.None? ==> c.description == prev.description)
      && (color.Some? ==> c.color == color) && (color.None? ==> c.color == prev.color)
      && (position.Some? ==> c.position == position.value)
      && (position.None? ==> c.position == prev.position)
      && c.(title := prev.title, description := prev.description, color := prev.color,
            position := prev.position, updatedAt := prev.updatedAt) == prev
      && c.updatedAt == Some(now)
      && r.store.columns == s.columns[columnId := c]
      && r.store.tasks == s.tasks && r.store.boards == s.boards
      && r.store.log == s.log + [LogEntry(None, Some(prev.boardId), "COLUMN_UPDATED",
           "Column '" + c.title + "' was updated in board '" + s.boards[prev.boardId].name + "'", now)]
  {
    if columnId !in s.columns then Step(s, None)
    else
      var prev := s.columns[columnId];
      if prev.boardId !in s.boards then Step(s, None)
      else
        var board := s.boards[prev.boardId];
        var c := Column(prev.id, prev.boardId, title.GetOr(prev.title),
                        if description.Some? then description else prev.description,
                        if color.Some? then color else prev.color,
                        position.GetOr(prev.position), prev.createdAt, Some(now));
        var saved := s.(columns := s.columns[columnId := c]);
        var logged := ActivityLogService.LogActivity(saved, prev.boardId, "COLUMN_UPDATED",
          "Column '" + c.title + "' was updated in board '" + board.name + "'", now);
        Step(logged.store, Some(c))
  }

  /**
   * `deleteColumn`: false when the column or its board is missing. Otherwise removes that
   * column only (its tasks are left in place) and logs `COLUMN_DELETED`.
   */
  function DeleteColumn(s: Store, columnId: string, now: int): (r: Step<bool>)
    ensures r.result <==> columnId in s.columns && s.columns[columnId].boardId in s.boards
    ensures !r.result ==> r.store == s
    ensures r.result ==>
      var prev := s.columns[columnId];
      && r.store.columns == s.columns - {columnId}
      && r.store.tasks == s.tasks && r.store.boards == s.boards
      && r.store.log == s.log + [LogEntry(None, Some(prev.boardId), "COLUMN_DELETED",
           "Column '" + prev.title + "' was deleted from board '" + s.boards[prev.boardId].name + "'", now)]
  {
    if columnId !in s.columns then Step(s, false)
    else
      var prev := s.columns[columnId];
      if prev.boardId !in s.boards then Step(s, false)
      else
        var board := s.boards[prev.boardId];
        var removed := s.(columns := s.columns - {columnId});
        var logged := ActivityLogService.LogActivity(removed, prev.boardId, "COLUMN_DELETED",
          "Column '" + prev.title + "' was deleted from board '" + board.name + "'", now);
        Step(logged.store, true)
  }

  /** `updateColumnPosition`: only the position (and update time) changes; nothing is logged. */
  function UpdateColumnPosition(s: Store, columnId: string, newPosition: Int32, now: int)
    : (r: Step<Option<Column>>)
    ensures r.result.None? <==> columnId !in s.columns
    ensures r.result.None? ==> r.store == s
    ensures r.result.Some? ==>
      var prev := s.columns[columnId];
      && r.result.value == prev.(position := newPosition, updatedAt := Some(now))
      && r.store == s.(columns := s.columns[columnId := r.result.value])
  {
    if columnId !in s.columns then Step(s, None)
    else
      var prev := s.columns[columnId];
      var c := Column(prev.id, prev.boardId, prev.title, prev.description, prev.color,
                      newPosition, prev.createdAt, Some(now));
      Step(s.(columns := s.columns[columnId := c]), Some(c))
  }

  /**
   * Append-at-end: a column created without a position takes the index just past the
   * board's other columns, which now number one more.
   */
  lemma {:induction false} CreateColumnAtEnd(
    s: Store, newId: string, boardId: string, title: string,
    description: Option<string>, color: Option<string>, now: int)
    requires newId !in s.columns
    requires boardId in s.boards
    requires CountColumnsInBoard(s.columns, boardId) < TWO_POW_31
    ensures var r := CreateColumn(s, newId, boardId, title, description, color, None, now);
      && r.Created?
      && r.value.position as int + 1 == CountColumnsInBoard(r.store.columns, boardId)
  {
    var r := CreateColumn(s, newId, boardId, title, description, color, None, now);
    var before := set k | k in s.columns && s.columns[k].boardId == boardId;
    var after := set k | k in r.store.columns && r.store.columns[k].boardId == boardId;
    assert after == before + {newId};
  }
}
