/** Board documents: lookup, creation, renaming and deletion. None of these writes the log. */
module BoardService {
  import opened Wrappers
  import opened Entities

  /** `getBoardById`: the stored board, or null. */
  function GetBoardById(s: Store, boardId: string): (r: Option<Board>)
    ensures r.Some? <==> boardId in s.boards
    ensures r.Some? ==> r.value == s.boards[boardId]
  {
    if boardId in s.boards then Some(s.boards[boardId]) else None
  }

  /**
   * `createBoard`: a board with the given name and description, no columns, no embedded
   * log, both timestamps `now`, saved under the id the repository hands out.
   */
  function CreateBoard(s: Store, newId: string, name: string, description: Option<string>, now: int)
    : (r: Step<Board>)
    requires newId !in s.boards
    ensures r.result.id == newId
    ensures r.result.name == name && r.result.description == description
    ensures r.result.columns == [] && r.result.activityLog == None
    ensures r.result.createdAt == Some(now) && r.result.updatedAt == Some(now)
    ensures r.store == s.(boards := s.boards[newId := r.result])
  {
    var board := Board(newId, name, description, [], None, Some(now), Some(now));
    Step(s.(boards := s.boards[newId := board]), board)
  }

  /**
   * `updateBoard`: name and description are replaced outright (a null description clears
   * it); id, embedded log and creation time are kept. The embedded column list is not
   * copied, so it comes back empty.
   */
  function UpdateBoard(s: Store, boardId: string, name: string, description: Option<string>, now: int)
    : (r: Step<Option<Board>>)
    ensures r.result.None? <==> boardId !in s.boards
    ensures r.result.None? ==> r.store == s
    ensures r.result.Some? ==>
      var prev := s.boards[boardId];
      var b := r.result.value;
      && b.id == prev.id && b.activityLog == prev.activityLog && b.createdAt == prev.createdAt
      && b.name == name && b.description == description
      && b.columns == [] && b.updatedAt == Some(now)
      && r.store == s.(boards := s.boards[boardId := b])
  {
    if boardId !in s.boards then Step(s, None)
    else
      var prev := s.boards[boardId];
      var b := Board(prev.id, name, description, [], prev.activityLog, prev.createdAt, Some(now));
      Step(s.(boards := s.boards[boardId := b]), Some(b))
  }

  /** `deleteBoard`: removes that board only; its columns and tasks stay where they are. */
  function DeleteBoard(s: Store, boardId: string): (r: Step<bool>)
    ensures r.result <==> boardId in s.boards
    ensures !r.result ==> r.store == s
    ensures r.store.boards.Keys == s.boards.Keys - {boardId}
    ensures forall k :: k in r.store.boards ==> r.store.boards[k] == s.boards[k]
    ensures r.store.tasks == s.tasks && r.store.columns == s.columns && r.store.log == s.log
  {
    if boardId !in s.boards then Step(s, false)
    else Step(s.(boards := s.boards - {boardId}), true)
  }

  /** A created board is found again under its id. */
  lemma CreateThenGet(s: Store, newId: string, name: string, description: Option<string>, now: int)
    requires newId !in s.boards
    ensures var r := CreateBoard(s, newId, name, description, now);
      GetBoardById(r.store, newId) == Some(r.result)
      && forall k :: k != newId ==> GetBoardById(r.store, k) == GetBoardById(s, k)
  {
  }

  /** Once deleted, a board is not found, and deleting it again reports false. */
  lemma DeleteThenGet(s: Store, boardId: string)
    ensures var r := DeleteBoard(s, boardId);
      GetBoardById(r.store, boardId) == None && !DeleteBoard(r.store, boardId).result
  {
  }
}
