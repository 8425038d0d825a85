/**
 * The page: the list of boards, the id of the board on screen, and the handlers that
 * replace a board, replace its columns, pick a board and add a board.
 */
module Page {
  import opened Wrappers
  import opened ClientModel
  import opened Workflow

  datatype AppState = AppState(boards: seq<Board>, currentBoardId: string)

  /** Board `i` is the first with the id. */
  ghost predicate FirstBoardAt(boards: seq<Board>, id: string, i: int) {
    && 0 <= i < |boards|
    && boards[i].id == id
    && forall j :: 0 <= j < i ==> boards[j].id != id
  }

  /** `boards.find((b) => b.id === id)`. */
  function FindBoard(boards: seq<Board>, id: string): (r: Option<Board>)
    ensures r.None? <==> forall i :: 0 <= i < |boards| ==> boards[i].id != id
    ensures r.Some? ==> exists i :: FirstBoardAt(boards, id, i) && boards[i] == r.value
  {
    if |boards| == 0 then None
    else if boards[0].id == id then
      assert FirstBoardAt(boards, id, 0);
      Some(boards[0])
    else
      var r := FindBoard(boards[1..], id);
      FindBoardShift(boards, id, r);
      r
  }

  lemma FindBoardShift(boards: seq<Board>, id: string, r: Option<Board>)
    requires |boards| > 0 && boards[0].id != id
    requires r.Some? ==> exists i :: FirstBoardAt(boards[1..], id, i) && boards[1..][i] == r.value
    ensures r.Some? ==> exists i :: FirstBoardAt(boards, id, i) && boards[i] == r.value
  {
    if r.Some? {
      var i :| FirstBoardAt(boards[1..], id, i) && boards[1..][i] == r.value;
      assert FirstBoardAt(boards, id, i + 1) by {
        forall j | 0 <= j < i + 1 ensures boards[j].id != id {
          if j > 0 {
            assert boards[j] == boards[1..][j - 1];
          }
        }
      }
    }
  }

  /**
   * `currentBoard`: the first board with the current id, else the first board; with no
   * boards at all there is none (the page would read `undefined`).
   */
  function CurrentBoard(st: AppState): (r: Option<Board>)
    ensures r.None? <==> |st.boards| == 0
    ensures (exists i :: 0 <= i < |st.boards| && st.boards[i].id == st.currentBoardId) ==>
      r.Some? && r.value.id == st.currentBoardId && r.value in st.boards
    ensures (exists i :: 0 <= i < |st.boards| && st.boards[i].id == st.currentBoardId) ==>
      exists i :: FirstBoardAt(st.boards, st.currentBoardId, i) && r == Some(st.boards[i])
    ensures (forall i :: 0 <= i < |st.boards| ==> st.boards[i].id != st.currentBoardId) && |st.boards| > 0 ==>
      r == Some(st.boards[0])
  {
    match FindBoard(st.boards, st.currentBoardId)
    case Some(b) => Some(b)
    case None => if |st.boards| == 0 then None else Some(st.boards[0])
  }

  /** Every board with the id replaced, the rest in place. */
  function ReplaceBoard(boards: seq<Board>, id: string, with: Board): (r: seq<Board>)
    ensures |r| == |boards|
    ensures forall i :: 0 <= i < |boards| ==> r[i] == if boards[i].id == id then with else boards[i]
  {
    seq(|boards|, i requires 0 <= i < |boards| => if boards[i].id == id then with else boards[i])
  }

  /** The board component's `onBoardChange`: the boards under the current id become the updated board. */
  function OnBoardChange(st: AppState, updated: Board): (r: AppState)
    ensures r.currentBoardId == st.currentBoardId
    ensures r.boards == ReplaceBoard(st.boards, st.currentBoardId, updated)
  {
    st.(boards := ReplaceBoard(st.boards, st.currentBoardId, updated))
  }

  /** `handleColumnsChange`: the boards under the current id get the new columns, all else kept. */
  function ColumnsChange(st: AppState, columns: seq<Column>): (r: AppState)
    ensures r.currentBoardId == st.currentBoardId && |r.boards| == |st.boards|
    ensures forall i :: 0 <= i < |st.boards| ==>
      r.boards[i] == if st.boards[i].id == st.currentBoardId then st.boards[i].(columns := columns) else st.boards[i]
  {
    var boards := st.boards;
    st.(boards := seq(|boards|, i requires 0 <= i < |boards| =>
      if boards[i].id == st.currentBoardId then boards[i].(columns := columns) else boards[i]))
  }

  /** `handleBoardChange`: another board put on screen; the boards are untouched. */
  function SelectBoard(st: AppState, boardId: string): (r: AppState)
    ensures r.boards == st.boards && r.currentBoardId == boardId
  {
    st.(currentBoardId := boardId)
  }

  /** The four columns every new board starts with, all empty. */
  const DEFAULT_COLUMNS: seq<Column> := [
    Column("todo", "To Do", []),
    Column("in-progress", "In Progress", []),
    Column("review", "Review", []),
    Column("done", "Done", [])]

  /** The rules every new board starts with: forward one step, or back one step. */
  const DEFAULT_RULES: seq<WorkflowRule> := [
    WorkflowRule("todo", ["in-progress"]),
    WorkflowRule("in-progress", ["review", "todo"]),
    WorkflowRule("review", ["done", "in-progress"]),
    WorkflowRule("done", ["in-progress"])]

  /** The board `handleAddBoard` builds; its id (`Date.now().toString()`) is an input here. */
  function NewBoard(name: string, newId: string): (b: Board)
    ensures b.id == newId && b.name == name
    ensures ColumnIds(b.columns) == ["todo", "in-progress", "review", "done"]
    ensures TotalTasks(b.columns) == 0
    ensures b.activityLog == Some([])
  {
    Board(newId, name, DEFAULT_COLUMNS, Some(DEFAULT_RULES), Some([]))
  }

  /** `handleAddBoard`: the new board appended and put on screen. */
  function AddBoard(st: AppState, name: string, newId: string): (r: AppState)
    ensures r.boards == st.boards + [NewBoard(name, newId)]
    ensures r.currentBoardId == newId
  {
    AppState(st.boards + [NewBoard(name, newId)], newId)
  }

  /** Under an id no board has yet, the added board is the one on screen. */
  lemma AddBoardIsCurrent(st: AppState, name: string, newId: string)
    requires forall i :: 0 <= i < |st.boards| ==> st.boards[i].id != newId
    ensures CurrentBoard(AddBoard(st, name, newId)) == Some(NewBoard(name, newId))
  {
    var r := AddBoard(st, name, newId);
    assert r.boards[|st.boards|] == NewBoard(name, newId);
  }

  /** The starting board that the page holds before any edit. */
  const INITIAL_BOARD: Board := Board("1", "Project Alpha", [
      Column("todo", "To Do", [
        Task("1", "Design new landing page", Some("Create wireframes and mockups for the new landing page"),
          Some(High), Some("John Doe"), None, Some(["design", "frontend"]), Some([])),
        Task("2", "Update documentation", Some("Add API documentation for new endpoints"),
          Some(Medium), None, None, Some(["docs"]), Some([]))]),
      Column("in-progress", "In Progress", [
        Task("3", "Implement authentication", Some("Add JWT authentication to the backend"),
          Some(High), Some("Jane Smith"), Some("2025-01-15"), Some(["backend", "security"]), Some([]))]),
      Column("review", "Review", [
        Task("4", "Code review for PR #123", Some("Review the new feature implementation"),
          Some(Medium), Some("Bob Johnson"), None, Some(["review"]), Some([]))]),
      Column("done", "Done", [
        Task("5", "Setup CI/CD pipeline", Some("Configure GitHub Actions for automated testing"),
          Some(High), None, None, Some(["devops"]), Some([]))])],
    Some(DEFAULT_RULES), Some([]))

  /** The page's first state: the starting board, on screen. */
  function Initial(): (st: AppState)
    ensures |st.boards| == 1 && st.boards[0].id == st.currentBoardId
    ensures ColumnIds(st.boards[0].columns) == ["todo", "in-progress", "review", "done"]
  {
    AppState([INITIAL_BOARD], INITIAL_BOARD.id)
  }

  /** The current id names one of the boards. */
  ghost predicate Valid(st: AppState) {
    exists i :: 0 <= i < |st.boards| && st.boards[i].id == st.currentBoardId
  }

  /**
   * The handlers the page hands to its components, as the steps a session can take.
   * `handleColumnsChange` is passed to no component, so it is not among them.
   */
  datatype Event =
    | Select(boardId: string)
    | Add(name: string, newId: string)
    | BoardEdited(updated: Board)

  function Handle(st: AppState, e: Event): AppState {
    match e
    case Select(id) => SelectBoard(st, id)
    case Add(name, id) => AddBoard(st, name, id)
    case BoardEdited(b) => OnBoardChange(st, b)
  }

  /**
   * What the callers guarantee: the selector offers only existing boards, and the board
   * component hands back the board it was given, with its id.
   */
  ghost predicate Allowed(st: AppState, e: Event) {
    match e
    case Select(id) => exists i :: 0 <= i < |st.boards| && st.boards[i].id == id
    case Add(_, _) => true
    case BoardEdited(b) => b.id == st.currentBoardId
  }

  /** Every allowed step keeps the current id pointing at a board. */
  lemma HandleKeepsValid(st: AppState, e: Event)
    requires Valid(st) && Allowed(st, e)
    ensures Valid(Handle(st, e))
  {
    var i :| 0 <= i < |st.boards| && st.boards[i].id == st.currentBoardId;
    var r := Handle(st, e);
    match e
    case Select(id) =>
    case Add(name, id) =>
      assert r.boards[|st.boards|].id == id;
    case BoardEdited(b) =>
      assert r.boards[i].id == r.currentBoardId;
  }

  /** A run of allowed steps from the first state. */
  ghost predicate AllowedRun(st: AppState, events: seq<Event>)
    decreases |events|
  {
    |events| == 0 || (Allowed(st, events[0]) && AllowedRun(Handle(st, events[0]), events[1..]))
  }

  function Replay(st: AppState, events: seq<Event>): AppState
    decreases |events|
  {
    if |events| == 0 then st else Replay(Handle(st, events[0]), events[1..])
  }

  /**
   * In every state the page reaches the current id names a board, so the fallback to the
   * first board is never taken and edits land on the board on screen.
   */
  lemma {:induction false} ReachableIsValid(st: AppState, events: seq<Event>)
    requires Valid(st) && AllowedRun(st, events)
    ensures Valid(Replay(st, events))
    decreases |events|
  {
    if |events| > 0 {
      HandleKeepsValid(st, events[0]);
      ReachableIsValid(Handle(st, events[0]), events[1..]);
    }
  }

  /** The page starts valid. */
  lemma InitialIsValid()
    ensures Valid(Initial())
  {
    assert Initial().boards[0].id == Initial().currentBoardId;
  }

  /** In a valid state an edit handed back by the board is what the page then shows. */
  lemma EditIsShown(st: AppState, updated: Board)
    requires Valid(st) && updated.id == st.currentBoardId
    ensures CurrentBoard(OnBoardChange(st, updated)) == Some(updated)
  {
    FindBoardReplaced(st.boards, OnBoardChange(st, updated).boards, st.currentBoardId, updated);
  }

  /** Replacing the boards under an id by one with that id makes it the board found under the id. */
  lemma {:induction false} FindBoardReplaced(boards: seq<Board>, r: seq<Board>, id: string, updated: Board)
    requires updated.id == id && |r| == |boards|
    requires forall i :: 0 <= i < |boards| ==> r[i] == if boards[i].id == id then updated else boards[i]
    ensures FindBoard(r, id) == if FindBoard(boards, id).Some? then Some(updated) else None
  {
    if |boards| > 0 && boards[0].id != id {
      assert r[0] == boards[0];
      FindBoardReplaced(boards[1..], r[1..], id, updated);
    }
  }

  /** Giving the boards under an id new columns gives the board found under it the same columns. */
  lemma {:induction false} FindBoardWithColumns(
    boards: seq<Board>, r: seq<Board>, id: string, columns: seq<Column>)
    requires |r| == |boards|
    requires forall i :: 0 <= i < |boards| ==>
      r[i] == if boards[i].id == id then boards[i].(columns := columns) else boards[i]
    ensures FindBoard(r, id).None? == FindBoard(boards, id).None?
    ensures FindBoard(r, id).Some? ==> FindBoard(r, id).value == FindBoard(boards, id).value.(columns := columns)
  {
    if |boards| > 0 && boards[0].id != id {
      assert r[0] == boards[0];
      FindBoardWithColumns(boards[1..], r[1..], id, columns);
    }
  }

  /** In a valid state new columns land on the board on screen, and it keeps its other fields. */
  lemma ColumnsChangeIsShown(st: AppState, columns: seq<Column>)
    requires Valid(st)
    ensures CurrentBoard(ColumnsChange(st, columns)) == Some(CurrentBoard(st).value.(columns := columns))
  {
    var r := ColumnsChange(st, columns);
    FindBoardWithColumns(st.boards, r.boards, st.currentBoardId, columns);
  }

  /** When the current id names no board, an edit of the board on screen is dropped. */
  lemma EditOfFallbackIsDropped(st: AppState, updated: Board)
    requires forall i :: 0 <= i < |st.boards| ==> st.boards[i].id != st.currentBoardId
    ensures OnBoardChange(st, updated).boards == st.boards
  {
  }

  /** The first default rule for each source column. */
  lemma DefaultRuleFor()
    ensures FindRule(DEFAULT_RULES, "todo") == Some(DEFAULT_RULES[0])
    ensures FindRule(DEFAULT_RULES, "in-progress") == Some(DEFAULT_RULES[1])
    ensures FindRule(DEFAULT_RULES, "review") == Some(DEFAULT_RULES[2])
    ensures FindRule(DEFAULT_RULES, "done") == Some(DEFAULT_RULES[3])
  {
    var r := DEFAULT_RULES;
    assert r[1..][1..] == r[2..];
    assert r[2..][1..] == r[3..];
  }

  /** Where the board has rules and one starts at the source, that rule alone decides. */
  lemma RuleDecides(board: Board, from: string, to: string, rule: WorkflowRule)
    requires board.workflowRules.Some? && FindRule(board.workflowRules.value, from) == Some(rule)
    ensures CanMoveTask(board, from, to) <==> from == to || to in rule.toColumnIds
  {
  }

  /** Under the default rules a task in "todo" may only go on to "in-progress". */
  lemma DefaultFromTodo(name: string, newId: string, to: string)
    ensures CanMoveTask(NewBoard(name, newId), "todo", to) <==> to == "todo" || to == "in-progress"
  {
    DefaultRuleFor();
    RuleDecides(NewBoard(name, newId), "todo", to, DEFAULT_RULES[0]);
  }

  /** From "in-progress" a task may go on to "review" or back to "todo". */
  lemma DefaultFromInProgress(name: string, newId: string, to: string)
    ensures CanMoveTask(NewBoard(name, newId), "in-progress", to)
      <==> to == "in-progress" || to == "review" || to == "todo"
  {
    DefaultRuleFor();
    assert DEFAULT_RULES[1].toColumnIds == ["review", "todo"];
    RuleDecides(NewBoard(name, newId), "in-progress", to, DEFAULT_RULES[1]);
  }

  /** From "review" a task may go on to "done" or back to "in-progress". */
  lemma DefaultFromReview(name: string, newId: string, to: string)
    ensures CanMoveTask(NewBoard(name, newId), "review", to)
      <==> to == "review" || to == "done" || to == "in-progress"
  {
    DefaultRuleFor();
    assert DEFAULT_RULES[2].toColumnIds == ["done", "in-progress"];
    RuleDecides(NewBoard(name, newId), "review", to, DEFAULT_RULES[2]);
  }

  /** From "done" a task may only go back to "in-progress". */
  lemma DefaultFromDone(name: string, newId: string, to: string)
    ensures CanMoveTask(NewBoard(name, newId), "done", to) <==> to == "done" || to == "in-progress"
  {
    DefaultRuleFor();
    RuleDecides(NewBoard(name, newId), "done", to, DEFAULT_RULES[3]);
  }

  /** In particular a new board does not let a task skip from "todo" straight to "done". */
  lemma DefaultDeniesSkip(name: string, newId: string)
    ensures !CanMoveTask(NewBoard(name, newId), "todo", "done")
  {
    DefaultFromTodo(name, newId, "done");
  }

  /** Moves between columns the default rules do not mention are open. */
  lemma DefaultRulesOpenElsewhere(name: string, newId: string, from: string, to: string)
    requires from !in {"todo", "in-progress", "review", "done"}
    ensures CanMoveTask(NewBoard(name, newId), from, to)
  {
  }
}
