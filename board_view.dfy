/** The Kanban board view (internal/boards/board_view.go): a board object whose cursor, scroll,
    highlight and issue lists change with each key press, proved against a value-level
    description of each step over a snapshot of its fields. */
module Board {
  import opened Wrappers
  import opened Jira
  import opened BoardLayout

  /** Width of a column on screen, as NewBoardView sets it. */
  const DefaultColumnSize: int := 28

  /** The `&jira.Issue{}` the view starts out highlighting. */
  const EmptyIssue: Issue := Issue("", "", "", Status("", ""), Person("", ""), Person("", ""), "",
                                   Project("", "", ""), "", [], [])

  /** A snapshot of the board's fields. `highlight` is the highlighted issue's value and
      `highlightAt` the index of `issues` it points into, or -1 when it points elsewhere (the empty
      start value, or a slice that has since been replaced). */
  datatype BoardState = BoardState(
    statusesColumnsMap: map<Str, int>,
    columnStatusesMap: map<int, seq<Str>>,
    columns: seq<Str>,
    columnsX: map<int, int>,
    issuesRow: map<Str, int>,
    issuesColumn: map<Str, int>,
    issues: seq<Issue>,
    allIssues: seq<Issue>,
    assigneeFilter: Option<User>,
    highlight: Issue,
    highlightAt: int,
    issueSelected: bool,
    cursorX: int,
    cursorY: int,
    screenX: int,
    screenY: int,
    scrollX: int,
    scrollY: int,
    columnSize: int)

  /** What holds between the fields after every operation: the row and column tables describe the
      current issue list, and a live highlight pointer reads the issue it points at. */
  ghost predicate Consistent(b: BoardState)
  {
    b.issuesRow == RowLayout(b.issues, b.statusesColumnsMap).row &&
    b.issuesColumn == RowLayout(b.issues, b.statusesColumnsMap).column &&
    (b.highlightAt == -1 || (0 <= b.highlightAt < |b.issues| && b.issues[b.highlightAt] == b.highlight))
  }

  // ---------------------------------------------------------------------------------------------
  // Each step of the view on a snapshot

  /** refreshIssuesRows. */
  function RefreshRows(b: BoardState): BoardState
  {
    var l := RowLayout(b.issues, b.statusesColumnsMap);
    b.(issuesRow := l.row, issuesColumn := l.column)
  }

  /** getIssuePositionsInColumn: the cursor rows of column `c`, ascending. */
  function Positions(b: BoardState, c: int): seq<int>
  {
    SortPositions(ColumnPositions(b.issues, b.issuesRow, b.issuesColumn, c))
  }

  /** The row the cursor takes on entering column `c`: its first position, or 0. */
  function TopPosition(b: BoardState, c: int): int
  {
    var ps := Positions(b, c);
    if ps == [] then 0 else ps[0]
  }

  /** Whether issue `i` sits under the cursor and differs (by key) from the highlighted issue. */
  predicate NewlyUnderCursor(b: BoardState, i: int)
    requires 0 <= i < |b.issues|
  {
    var id := b.issues[i].id;
    Get(b.issuesColumn, id) == b.cursorX && Get(b.issuesRow, id) - 1 == b.cursorY &&
    b.highlight.key != b.issues[i].key
  }

  /** The first index from `i` on that refreshHighlightedIssue would pick, or -1. */
  function HighlightIndexFrom(b: BoardState, i: nat): (k: int)
    requires i <= |b.issues|
    ensures k == -1 || i <= k < |b.issues|
    decreases |b.issues| - i
  {
    if i == |b.issues| then -1
    else if NewlyUnderCursor(b, i) then i
    else HighlightIndexFrom(b, i + 1)
  }

  /** ensureHighlightInViewport. */
  function AdjustViewport(b: BoardState): BoardState
  {
    var s := ViewportScroll(b.cursorX, b.cursorY, b.scrollX, b.scrollY, b.columnSize, b.screenX);
    b.(scrollX := s.x, scrollY := s.y)
  }

  /** refreshHighlightedIssue: the first issue under the cursor whose key differs from the
      highlighted one becomes the highlight and the viewport follows it; otherwise nothing
      changes. */
  function RefreshHighlight(b: BoardState): BoardState
  {
    var k := HighlightIndexFrom(b, 0);
    if k == -1 then b else AdjustViewport(b.(highlight := b.issues[k], highlightAt := k))
  }

  /** pointCursorTo: the cursor goes to the issue's recorded column and row. */
  function CursorToIssue(b: BoardState, id: Str): BoardState
  {
    b.(cursorX := Get(b.issuesColumn, id), cursorY := Get(b.issuesRow, id) - 1)
  }

  lemma NonEmptyHasElement(s: set<int>)
    requires s != {}
    ensures exists x :: x in s
  {
    if forall x :: x !in s {
      assert false;
    }
  }

  lemma NonEmptyHasName(s: set<Str>)
    requires s != {}
    ensures exists x :: x in s
  {
    if forall x :: x !in s {
      assert false;
    }
  }

  /** The least of `bound` and `values`. */
  ghost function MinColumn(bound: int, values: set<int>): (m: int)
    ensures m <= bound && forall x :: x in values ==> m <= x
    ensures m == bound || m in values
    decreases values
  {
    if values == {} then bound
    else
      NonEmptyHasElement(values);
      var v :| v in values;
      var rest := MinColumn(bound, values - {v});
      var m := if v < rest then v else rest;
      assert forall x :: x in values ==> m <= x by {
        forall x | x in values ensures m <= x {
          if x != v { assert x in values - {v}; }
        }
      }
      m
  }

  /** setInitialCursorX: with any issue laid out, the cursor goes to the least issue column, where
      the minimum starts from len(columnsX), and to that column's first position. */
  ghost function SetInitialCursor(b: BoardState): BoardState
  {
    if |b.issuesColumn| == 0 then b
    else
      var x := MinColumn(|b.columnsX|, b.issuesColumn.Values);
      b.(cursorX := x, cursorY := TopPosition(b, x))
  }

  /** resize: column i starts at i * columnSize + i. */
  function ColumnOffsets(columnCount: nat, columnSize: int): map<int, int>
  {
    if columnCount == 0 then map[]
    else ColumnOffsets(columnCount - 1, columnSize)[columnCount - 1 := (columnCount - 1) * columnSize + columnCount - 1]
  }

  /** Every column gets an offset, each column one cell wider than `columnSize` apart, and nothing else does. */
  lemma {:induction false} ColumnOffsetsAt(columnCount: nat, columnSize: int)
    ensures forall i :: i in ColumnOffsets(columnCount, columnSize) <==> 0 <= i < columnCount
    ensures forall i :: 0 <= i < columnCount ==> ColumnOffsets(columnCount, columnSize)[i] == i * (columnSize + 1)
  {
    if columnCount > 0 {
      ColumnOffsetsAt(columnCount - 1, columnSize);
    }
  }

  /** The loop of resize: write the offset of each of the first `columnCount` columns into `xs`. */
  method PlaceColumns(xs: map<int, int>, columnCount: nat, columnSize: int) returns (r: map<int, int>)
    ensures r == xs + ColumnOffsets(columnCount, columnSize)
  {
    r := xs;
    for i := 0 to columnCount
      invariant r == xs + ColumnOffsets(i, columnSize)
    {
      if i == 0 {
        r := r[i := 0];
      } else {
        r := r[i := i * columnSize + i];
      }
    }
  }

  /** The common tail of applyAssigneeFilter and clearAssigneeFilter once `issues` is replaced:
      rebuild the rows, put cursor and scroll back to 0, place the cursor and refresh the
      highlight. */
  ghost function ResetView(b: BoardState): BoardState
  {
    RefreshHighlight(SetInitialCursor(RefreshRows(b).(cursorX := 0, cursorY := 0, scrollX := 0, scrollY := 0)))
  }

  /** applyAssigneeFilter: `issues` becomes the matching issues of `allIssues`. */
  ghost function FilterBoard(b: BoardState, user: User): BoardState
  {
    ResetView(b.(assigneeFilter := Some(user), issues := FilterByAssignee(b.allIssues, user), highlightAt := -1))
  }

  /** clearAssigneeFilter: `issues` becomes a copy of `allIssues`. */
  ghost function UnfilterBoard(b: BoardState): BoardState
  {
    ResetView(b.(assigneeFilter := None, issues := b.allIssues, highlightAt := -1))
  }

  /** The status list of the column next to the highlighted issue's, in the direction of the move
      (empty for a column that does not exist). */
  function TargetStatuses(b: BoardState, direction: int): seq<Str>
  {
    var inc := if direction < 0 then -1 else 1;
    var column := Get(b.statusesColumnsMap, b.highlight.status.id) + inc;
    if column in b.columnStatusesMap then b.columnStatusesMap[column] else []
  }

  /** The highlighted issue after taking transition `t`. */
  function Transitioned(issue: Issue, t: Transition): Issue
  {
    issue.(status := Status(t.toStatusId, t.toName))
  }

  /** The success path of moveIssue: the highlighted issue takes transition `t` (in `issues` too,
      when the highlight points into it), the selection is dropped, the rows are rebuilt and the
      cursor goes to the issue. */
  ghost function TakeTransition(b: BoardState, t: Transition): BoardState
  {
    var moved := Transitioned(b.highlight, t);
    var issues := if 0 <= b.highlightAt < |b.issues| then b.issues[b.highlightAt := moved] else b.issues;
    var b1 := RefreshRows(b.(issues := issues, highlight := moved, issueSelected := false));
    RefreshHighlight(CursorToIssue(b1, moved.id))
  }

  /** moveIssue for the highlighted issue, with the Jira calls as oracles: `findTransitions` lists
      an issue's transitions or fails, `doTransition` applies one and yields an error message or
      None. Any failure, or no transition into the neighbouring column, leaves the board as it
      was. */
  ghost function TransitionIssue(b: BoardState, direction: int, findTransitions: Str -> Result<seq<Transition>, Str>,
                                 doTransition: (Str, Transition) -> Option<Str>): BoardState
  {
    match findTransitions(b.highlight.id)
    case Err(_) => b
    case Ok(transitions) =>
      var k := LastMatchingTransition(transitions, TargetStatuses(b, direction));
      if k == -1 || doTransition(b.highlight.id, transitions[k]).Some? then b
      else TakeTransition(b, transitions[k])
  }

  /** The cursor enters column `c` at its topmost issue (row 0 when it has none). */
  function EnterColumn(b: BoardState, c: int): BoardState
  {
    b.(cursorX := c, cursorY := TopPosition(b, c))
  }

  /** What follows once the cursor has entered a column: in holding mode the held issue is moved
      after it, otherwise the highlight follows the cursor and, when it changed, the view scrolls
      back to the top. */
  ghost function FollowCursor(b: BoardState, direction: int, findTransitions: Str -> Result<seq<Transition>, Str>,
                              doTransition: (Str, Transition) -> Option<Str>): BoardState
  {
    if b.issueSelected then TransitionIssue(b, direction, findTransitions, doTransition)
    else if HighlightIndexFrom(b, 0) == -1 then b
    else RefreshHighlight(b).(scrollY := 0)
  }

  /** moveCursorRight (direction 1) and moveCursorLeft (direction -1). */
  ghost function MoveHorizontally(b: BoardState, direction: int, findTransitions: Str -> Result<seq<Transition>, Str>,
                                  doTransition: (Str, Transition) -> Option<Str>): BoardState
  {
    var next := NextValidColumn(b.issues, b.issuesColumn, |b.columns|, b.cursorX, direction);
    if next == -1 then b
    else FollowCursor(EnterColumn(b, next), direction, findTransitions, doTransition)
  }

  /** The up (direction -1) and down (direction 1) branches of HandleKeyEvent. */
  ghost function MoveVertically(b: BoardState, direction: int): BoardState
  {
    if !HasVisibleIssues(b.issues, b.issuesColumn, b.cursorX) then b
    else
      var y := NextPosition(Positions(b, b.cursorX), b.cursorY, direction);
      if y == b.cursorY then b else RefreshHighlight(b.(cursorY := y))
  }

  /** A key event: the arrow keys and their vim letters, Enter, or anything else. */
  datatype Key = KeyRight | KeyLeft | KeyUp | KeyDown | KeyEnter | KeyRune(ch: char) | OtherKey

  predicate IsRight(key: Key) { key == KeyRight || key == KeyRune('l') }
  predicate IsLeft(key: Key) { key == KeyLeft || key == KeyRune('h') }
  predicate IsUp(key: Key) { key == KeyUp || key == KeyRune('k') }
  predicate IsDown(key: Key) { key == KeyDown || key == KeyRune('j') }

  /** Enter opens the highlighted issue when it is not picked up and has an id. */
  function OpensIssue(b: BoardState, key: Key, loading: bool): Option<Str>
  {
    if !loading && key == KeyEnter && !b.issueSelected && b.highlight.id != "" then Some(b.highlight.id) else None
  }

  /** HandleKeyEvent: nothing while loading or when Enter opens an issue; otherwise the arrow keys
      move the cursor (carrying a picked-up issue along horizontally). */
  ghost function HandleKey(b: BoardState, key: Key, loading: bool, findTransitions: Str -> Result<seq<Transition>, Str>,
                           doTransition: (Str, Transition) -> Option<Str>): BoardState
  {
    if loading || OpensIssue(b, key, loading).Some? then b
    else if IsRight(key) then MoveHorizontally(b, 1, findTransitions, doTransition)
    else if IsLeft(key) then MoveHorizontally(b, -1, findTransitions, doTransition)
    else if IsUp(key) then MoveVertically(b, -1)
    else if IsDown(key) then MoveVertically(b, 1)
    else b
  }

  /** Init with the page request as the oracle `getPage` (taking the offset of the first issue) and
      at most `maxRequests` requests: a failed request keeps the pages gathered so far in
      `allIssues` and stops there; otherwise the active filter is re-applied, or `issues` becomes a
      copy of `allIssues` with rows, cursor and highlight set up. */
  ghost function LoadBoard(b: BoardState, getPage: int -> Result<Page, Str>, maxRequests: nat): BoardState
  {
    ShowLoaded(b, LoadPages(getPage, 0, [], maxRequests))
  }

  /** What Init makes of the load's outcome `l`: the issues gathered always become `allIssues`;
      after a failure nothing else changes, otherwise the active filter is applied or, without
      one, all issues are shown from the first column. */
  ghost function ShowLoaded(b: BoardState, l: Loaded): BoardState
  {
    var b1 := b.(allIssues := l.issues);
    if l.failed then b1
    else match b.assigneeFilter
      case Some(user) => FilterBoard(b1, user)
      case None => RefreshHighlight(SetInitialCursor(RefreshRows(b1.(issues := l.issues, highlightAt := -1))))
  }

  // ---------------------------------------------------------------------------------------------
  // The board object

  class BoardView {
    var statusesColumnsMap: map<Str, int>
    var columnStatusesMap: map<int, seq<Str>>
    var columns: seq<Str>
    var columnsX: map<int, int>
    var issuesRow: map<Str, int>
    var issuesColumn: map<Str, int>
    var issues: seq<Issue>
    var allIssues: seq<Issue>
    var assigneeFilter: Option<User>
    var highlight: Issue
    var highlightAt: int
    var issueSelected: bool
    var cursorX: int
    var cursorY: int
    var screenX: int
    var screenY: int
    var scrollX: int
    var scrollY: int
    var columnSize: int

    function State(): BoardState
      reads this
    {
      BoardState(statusesColumnsMap, columnStatusesMap, columns, columnsX, issuesRow, issuesColumn, issues,
                 allIssues, assigneeFilter, highlight, highlightAt, issueSelected, cursorX, cursorY,
                 screenX, screenY, scrollX, scrollY, columnSize)
    }

    /** NewBoardView: the column tables from the configuration, everything else empty. */
    constructor (cfg: seq<ColumnConfig>)
      ensures var cm := ColumnMapping(cfg);
              State() == BoardState(cm.statusColumn, cm.columnStatuses, cm.names, map[], map[], map[], [], [],
                                    None, EmptyIssue, -1, false, 0, 0, 0, 0, 0, 0, DefaultColumnSize)
      ensures Consistent(State())
    {
      var statusColumn, columnStatuses, names := MapColumns(cfg);
      statusesColumnsMap := statusColumn;
      columnStatusesMap := columnStatuses;
      columns := names;
      columnsX := map[];
      issuesRow := map[];
      issuesColumn := map[];
      issues := [];
      allIssues := [];
      assigneeFilter := None;
      highlight := EmptyIssue;
      highlightAt := -1;
      issueSelected := false;
      cursorX := 0;
      cursorY := 0;
      screenX := 0;
      screenY := 0;
      scrollX := 0;
      scrollY := 0;
      columnSize := DefaultColumnSize;
    }

    /** Resize: remember the screen and lay the columns out side by side. */
    method Resize(newScreenX: int, newScreenY: int)
      modifies this
      ensures State() == old(State()).(screenX := newScreenX, screenY := newScreenY,
                                       columnsX := old(columnsX) + ColumnOffsets(|columns|, columnSize))
    {
      var xs := PlaceColumns(columnsX, |columns|, columnSize);
      screenY := newScreenY;
      screenX := newScreenX;
      columnsX := xs;
    }

    /** refreshIssuesRows: rebuild both tables from empty, numbering rows per column. */
    method RefreshIssuesRows()
      modifies this
      ensures State() == RefreshRows(old(State()))
    {
      var row, column := NumberRows(issues, statusesColumnsMap);
      issuesRow := row;
      issuesColumn := column;
    }

    /** columnHasVisibleIssues. */
    method ColumnHasVisibleIssues(c: int) returns (visible: bool)
      ensures visible <==> HasVisibleIssues(issues, issuesColumn, c)
    {
      for i := 0 to |issues|
        invariant forall j :: 0 <= j < i ==> Get(issuesColumn, issues[j].id) != c
      {
        if Get(issuesColumn, issues[i].id) == c {
          return true;
        }
      }
      return false;
    }

    /** getIssuePositionsInColumn: collect row - 1 of the column's issues, then exchange-sort them
        in place. */
    method GetIssuePositionsInColumn(c: int) returns (positions: seq<int>)
      ensures positions == Positions(State(), c)
    {
      positions := SortedPositions(issues, issuesRow, issuesColumn, c);
    }

    /** findNextIssuePosition for the cursor's column. */
    method FindNextIssuePosition(direction: int) returns (y: int)
      ensures y == NextPosition(Positions(State(), cursorX), cursorY, direction)
    {
      var positions := GetIssuePositionsInColumn(cursorX);
      y := NextPositionIn(positions, cursorY, direction);
    }

    /** findNextValidColumn. */
    method FindNextValidColumn(startColumn: int, direction: int) returns (next: int)
      ensures next == NextValidColumn(issues, issuesColumn, |columns|, startColumn, direction)
    {
      var currentColumn := startColumn;
      for i := 0 to |columns|
        invariant currentColumn == startColumn + i * direction
        invariant NextValidColumn(issues, issuesColumn, |columns|, startColumn, direction) ==
                  NextValidColumnFrom(issues, issuesColumn, |columns|, currentColumn, direction, |columns| - i)
      {
        currentColumn := currentColumn + direction;
        if currentColumn < 0 || currentColumn >= |columns| {
          break;
        }
        var visible := ColumnHasVisibleIssues(currentColumn);
        if visible {
          return currentColumn;
        }
      }
      return -1;
    }

    /** refreshHighlightedIssue: reports whether the highlight moved. */
    method RefreshHighlightedIssue() returns (changed: bool)
      modifies this
      ensures changed <==> HighlightIndexFrom(old(State()), 0) != -1
      ensures State() == RefreshHighlight(old(State()))
    {
      for i := 0 to |issues|
        invariant HighlightIndexFrom(State(), 0) == HighlightIndexFrom(State(), i)
      {
        var issue := issues[i];
        var y := Get(issuesRow, issue.id);
        if Get(issuesColumn, issue.id) == cursorX && y - 1 == cursorY {
          if highlight.key != issue.key {
            highlight := issues[i];
            highlightAt := i;
            EnsureHighlightInViewport();
            return true;
          }
        }
      }
      return false;
    }

    /** pointCursorTo. */
    method PointCursorTo(issueId: Str)
      modifies this
      ensures State() == CursorToIssue(old(State()), issueId)
    {
      cursorX := Get(issuesColumn, issueId);
      cursorY := Get(issuesRow, issueId) - 1;
    }

    /** setInitialCursorX: the leftmost recorded column and its first position. */
    method SetInitialCursorX()
      modifies this
      ensures State() == SetInitialCursor(old(State()))
    {
      if |issuesColumn| == 0 {
        return;
      }
      var leftmostColumn := LeftmostColumn();
      var positions := GetIssuePositionsInColumn(leftmostColumn);
      cursorX := leftmostColumn;
      if |positions| > 0 {
        cursorY := positions[0];
      } else {
        cursorY := 0;
      }
    }

    /** The scan of setInitialCursorX over the recorded columns, starting from len(columnsX). */
    method LeftmostColumn() returns (leftmostColumn: int)
      ensures leftmostColumn <= |columnsX|
      ensures forall id :: id in issuesColumn ==> leftmostColumn <= issuesColumn[id]
      ensures leftmostColumn == |columnsX| || leftmostColumn in issuesColumn.Values
      ensures leftmostColumn == MinColumn(|columnsX|, issuesColumn.Values)
    {
      leftmostColumn := |columnsX|;
      var remaining := issuesColumn.Keys;
      while remaining != {}
        invariant remaining <= issuesColumn.Keys
        invariant leftmostColumn <= |columnsX|
        invariant leftmostColumn == |columnsX| || leftmostColumn in issuesColumn.Values
        invariant forall id :: id in issuesColumn && id !in remaining ==> leftmostColumn <= issuesColumn[id]
        decreases |remaining|
      {
        NonEmptyHasName(remaining);
        var id :| id in remaining;
        var v := issuesColumn[id];
        if v < leftmostColumn {
          leftmostColumn := v;
        }
        remaining := remaining - {id};
      }
      MinColumnIsUnique(|columnsX|, issuesColumn.Values, leftmostColumn);
    }

    /** ensureHighlightInViewport (the highlight is never nil here). */
    method EnsureHighlightInViewport()
      modifies this
      ensures State() == AdjustViewport(old(State()))
    {
      if cursorX == 0 {
        scrollX := 0;
      } else if scrollX + (cursorX * columnSize) + columnSize > screenX {
        scrollX := Max(0, (cursorX - 2) * columnSize);
      }
      if scrollY + cursorY > scrollY {
        scrollY := Max(0, cursorY - 2);
      }
    }

    /** moveCursorRight. */
    method MoveCursorRight(findTransitions: Str -> Result<seq<Transition>, Str>,
                           doTransition: (Str, Transition) -> Option<Str>)
      modifies this
      ensures State() == MoveHorizontally(old(State()), 1, findTransitions, doTransition)
    {
      MoveCursorAcross(1, findTransitions, doTransition);
    }

    /** moveCursorLeft. */
    method MoveCursorLeft(findTransitions: Str -> Result<seq<Transition>, Str>,
                          doTransition: (Str, Transition) -> Option<Str>)
      modifies this
      ensures State() == MoveHorizontally(old(State()), -1, findTransitions, doTransition)
    {
      MoveCursorAcross(-1, findTransitions, doTransition);
    }

    /** The body moveCursorRight and moveCursorLeft share, for either direction. */
    method MoveCursorAcross(direction: int, findTransitions: Str -> Result<seq<Transition>, Str>,
                            doTransition: (Str, Transition) -> Option<Str>)
      modifies this
      ensures State() == MoveHorizontally(old(State()), direction, findTransitions, doTransition)
    {
      var nextColumn := FindNextValidColumn(cursorX, direction);
      assert nextColumn == NextValidColumn(old(State()).issues, old(State()).issuesColumn, |old(State()).columns|,
                                           old(State()).cursorX, direction);
      if nextColumn == -1 {
        return;
      }
      MoveCursorInto(nextColumn);
      AfterCursorMove(direction, findTransitions, doTransition);
    }

    /** Put the cursor on the topmost issue of column `c`. */
    method MoveCursorInto(c: int)
      modifies this
      ensures State() == EnterColumn(old(State()), c)
    {
      var positions := GetIssuePositionsInColumn(c);
      cursorX := c;
      if |positions| > 0 {
        cursorY := positions[0];
      } else {
        cursorY := 0;
      }
    }

    /** The tail of moveCursorRight and moveCursorLeft, once the cursor is in its new column. */
    method AfterCursorMove(direction: int, findTransitions: Str -> Result<seq<Transition>, Str>,
                           doTransition: (Str, Transition) -> Option<Str>)
      modifies this
      ensures State() == FollowCursor(old(State()), direction, findTransitions, doTransition)
    {
      if issueSelected {
        MoveIssue(direction, findTransitions, doTransition);
        return;
      }
      var changed := RefreshHighlightedIssue();
      if !changed {
        return;
      }
      scrollY := 0;
    }

    /** moveIssue for the highlighted issue. */
    method MoveIssue(direction: int, findTransitions: Str -> Result<seq<Transition>, Str>,
                     doTransition: (Str, Transition) -> Option<Str>)
      modifies this
      ensures State() == TransitionIssue(old(State()), direction, findTransitions, doTransition)
    {
      var issue := highlight;
      var inc := 1;
      if direction < 0 {
        inc := -1;
      }
      var column := Get(statusesColumnsMap, issue.status.id) + inc;
      var targetColumnStatuses := if column in columnStatusesMap then columnStatusesMap[column] else [];
      assert targetColumnStatuses == TargetStatuses(State(), direction);
      var found := findTransitions(issue.id);
      if found.Err? {
        return;
      }
      var transitions := found.value;
      var target := FindTargetTransition(transitions, targetColumnStatuses);
      if target == -1 {
        return;
      }
      var err := doTransition(issue.id, transitions[target]);
      if err.Some? {
        return;
      }
      TakeTransitionStep(transitions[target]);
    }

    /** The success path of moveIssue. */
    method TakeTransitionStep(t: Transition)
      modifies this
      ensures State() == TakeTransition(old(State()), t)
    {
      var moved := Transitioned(highlight, t);
      if 0 <= highlightAt < |issues| {
        issues := issues[highlightAt := moved];
      }
      highlight := moved;
      issueSelected := false;
      assert State() == old(State()).(issues := issues, highlight := moved, issueSelected := false);
      RefreshIssuesRows();
      PointCursorTo(moved.id);
      var _ := RefreshHighlightedIssue();
    }

    /** HandleKeyEvent: returns the id of the issue Enter opens, if any. */
    method HandleKeyEvent(key: Key, loading: bool, findTransitions: Str -> Result<seq<Transition>, Str>,
                          doTransition: (Str, Transition) -> Option<Str>) returns (open: Option<Str>)
      modifies this
      ensures open == OpensIssue(old(State()), key, loading)
      ensures State() == HandleKey(old(State()), key, loading, findTransitions, doTransition)
    {
      if loading {
        return None;
      }
      if key == KeyEnter {
        if !issueSelected && highlight.id != "" {
          return Some(highlight.id);
        }
      }
      open := None;
      assert OpensIssue(State(), key, loading) == None;
      // the key tests below are exclusive, so at most one branch runs
      if IsRight(key) {
        MoveCursorRight(findTransitions, doTransition);
      } else if IsLeft(key) {
        MoveCursorLeft(findTransitions, doTransition);
      } else if IsUp(key) {
        MoveCursorVertically(-1);
      } else if IsDown(key) {
        MoveCursorVertically(1);
      }
    }

    /** The up and down branches of HandleKeyEvent: only within a column that has issues. */
    method MoveCursorVertically(direction: int)
      modifies this
      ensures State() == MoveVertically(old(State()), direction)
    {
      var visible := ColumnHasVisibleIssues(cursorX);
      if visible {
        var newY := FindNextIssuePosition(direction);
        if newY != cursorY {
          cursorY := newY;
          var _ := RefreshHighlightedIssue();
        }
      }
    }

    /** getBoardAssignees: one entry per distinct assignee name of `allIssues` (in no particular
        order), then one "Unassigned" entry when some issue has no assignee name. */
    method GetBoardAssignees() returns (filtered: seq<User>)
      ensures var names := AssigneeNames(allIssues);
              |filtered| == |names| + (if HasUnassigned(allIssues) then 1 else 0) &&
              names == DisplayNames(filtered[..|names|]) &&
              (forall k :: 0 <= k < |names| ==> filtered[k] == AssigneeUser(filtered[k].displayName)) &&
              (HasUnassigned(allIssues) ==> filtered[|filtered| - 1] == UnassignedUser)
    {
      var assigneeNames, hasUnassigned := CollectAssignees(allIssues);
      var users := UsersNamed(assigneeNames);
      filtered := users;
      if hasUnassigned {
        filtered := filtered + [UnassignedUser];
      }
      assert filtered[..|assigneeNames|] == users;
    }

    /** applyAssigneeFilter. */
    method ApplyAssigneeFilter(user: User)
      modifies this
      ensures State() == FilterBoard(old(State()), user)
    {
      var kept := KeepAssignedTo(allIssues, user);
      assigneeFilter := Some(user);
      issues := kept;
      highlightAt := -1;
      assert State() == old(State()).(assigneeFilter := Some(user), issues := FilterByAssignee(old(allIssues), user),
                                      highlightAt := -1);
      ResetCursorAndView();
    }

    /** clearAssigneeFilter. */
    method ClearAssigneeFilter()
      modifies this
      ensures State() == UnfilterBoard(old(State()))
    {
      assigneeFilter := None;
      issues := allIssues;
      highlightAt := -1;
      assert State() == old(State()).(assigneeFilter := None, issues := old(allIssues), highlightAt := -1);
      ResetCursorAndView();
    }

    /** The tail applyAssigneeFilter and clearAssigneeFilter share. */
    method ResetCursorAndView()
      modifies this
      ensures State() == ResetView(old(State()))
    {
      RefreshIssuesRows();
      ghost var rows := State();
      cursorX := 0;
      cursorY := 0;
      scrollX := 0;
      scrollY := 0;
      assert State() == rows.(cursorX := 0, cursorY := 0, scrollX := 0, scrollY := 0);
      SetInitialCursorX();
      var _ := RefreshHighlightedIssue();
    }

    /** Init: the paged load, then the issue list, rows, cursor and highlight. */
    method Init(getPage: int -> Result<Page, Str>, maxRequests: nat)
      modifies this
      ensures State() == LoadBoard(old(State()), getPage, maxRequests)
    {
      var loaded, failed := FetchAllIssues(getPage, maxRequests);
      ShowIssues(loaded, failed);
    }

    /** Init after the load: record the issues gathered and, unless the load failed, show them. */
    method ShowIssues(loaded: seq<Issue>, failed: bool)
      modifies this
      ensures State() == ShowLoaded(old(State()), Loaded(loaded, failed))
    {
      allIssues := loaded;
      assert State() == old(State()).(allIssues := loaded);
      if failed {
        return;
      }
      match assigneeFilter
      case Some(user) =>
        ApplyAssigneeFilter(user);
      case None =>
        issues := allIssues;
        highlightAt := -1;
        assert State() == old(State()).(allIssues := loaded, issues := loaded, highlightAt := -1);
        RefreshIssuesRows();
        SetInitialCursorX();
        var _ := RefreshHighlightedIssue();
    }
  }

  /** The loop of refreshIssuesRows: number the issues of each column 1, 2, ... in list order. */
  method NumberRows(issues: seq<Issue>, statusColumn: map<Str, int>) returns (row: map<Str, int>, column: map<Str, int>)
    ensures row == RowLayout(issues, statusColumn).row
    ensures column == RowLayout(issues, statusColumn).column
  {
    row := map[];
    column := map[];
    var rows: map<int, int> := map[];
    for i := 0 to |issues|
      invariant RowLayout(issues[..i], statusColumn) == Layout(row, column, rows)
    {
      assert issues[..i + 1][..i] == issues[..i];
      var issue := issues[i];
      var c := Get(statusColumn, issue.status.id);
      var y := Get(rows, c) + 1;
      row := row[issue.id := y];
      column := column[issue.id := c];
      rows := rows[c := y];
    }
    assert issues[..|issues|] == issues;
  }

  /** The body of getIssuePositionsInColumn: collect row - 1 of the issues of column `c`, then
      exchange-sort them in place; the result is sorted and holds the same positions. */
  method SortedPositions(issues: seq<Issue>, issuesRow: map<Str, int>, issuesColumn: map<Str, int>, c: int)
    returns (positions: seq<int>)
    ensures Sorted(positions)
    ensures multiset(positions) == multiset(ColumnPositions(issues, issuesRow, issuesColumn, c))
    ensures positions == SortPositions(ColumnPositions(issues, issuesRow, issuesColumn, c))
  {
    var collected: seq<int> := [];
    for i := 0 to |issues|
      invariant collected == ColumnPositions(issues[..i], issuesRow, issuesColumn, c)
    {
      assert issues[..i + 1][..i] == issues[..i];
      var issue := issues[i];
      if Get(issuesColumn, issue.id) == c {
        collected := collected + [Get(issuesRow, issue.id) - 1];
      }
    }
    assert issues[..|issues|] == issues;
    var a := new int[|collected|](k requires 0 <= k < |collected| => collected[k]);
    assert a[..] == collected;
    SortInPlace(a);
    positions := a[..];
    SortPositionsIsSorted(collected);
    SortPositionsMultiset(collected);
    SortedIsUnique(positions, SortPositions(collected));
  }

  /** The loop of applyAssigneeFilter: the issues of `all` the filter keeps, in order. */
  method KeepAssignedTo(all: seq<Issue>, user: User) returns (kept: seq<Issue>)
    ensures kept == FilterByAssignee(all, user)
  {
    kept := [];
    for i := 0 to |all|
      invariant kept == FilterByAssignee(all[..i], user)
    {
      assert all[..i + 1][..i] == all[..i];
      var issue := all[i];
      var assignee := issue.assignee;
      if user.displayName == MessageUnassigned {
        if assignee.displayName == "" {
          kept := kept + [issue];
        }
      } else {
        if user.accountId != "" {
          if assignee.accountId == user.accountId {
            kept := kept + [issue];
          }
        } else if assignee.displayName == user.displayName {
          kept := kept + [issue];
        }
      }
    }
    assert all[..|all|] == all;
  }

  /** The paging loop of Init: pages of 100 issues until 500 are held, the last page is in, a
      request fails or `maxRequests` requests were made. */
  method FetchAllIssues(getPage: int -> Result<Page, Str>, maxRequests: nat) returns (loaded: seq<Issue>, failed: bool)
    ensures Loaded(loaded, failed) == LoadPages(getPage, 0, [], maxRequests)
  {
    loaded := [];
    failed := false;
    var page: nat := 0;
    while |loaded| < MaxIssuesNumber && page < maxRequests
      invariant page <= maxRequests
      invariant LoadPages(getPage, 0, [], maxRequests) == LoadPages(getPage, page, loaded, maxRequests - page)
      decreases maxRequests - page
    {
      var result := getPage(page * IssueFetchBatchSize);
      if result.Err? {
        failed := true;
        break;
      }
      loaded := loaded + result.value.issues;
      if |loaded| >= result.value.total {
        break;
      }
      page := page + 1;
    }
  }

  /** The transition loops of moveIssue: the outer loop keeps overwriting the pick, the inner break
      only ends the scan of the target statuses. */
  method FindTargetTransition(transitions: seq<Transition>, targetStatuses: seq<Str>) returns (target: int)
    ensures target == LastMatchingTransition(transitions, targetStatuses)
  {
    target := -1;
    for i := 0 to |transitions|
      invariant target == LastMatchingTransition(transitions[..i], targetStatuses)
    {
      assert transitions[..i + 1][..i] == transitions[..i];
      for j := 0 to |targetStatuses|
        invariant target == if transitions[i].toStatusId in targetStatuses[..j] then i
                            else LastMatchingTransition(transitions[..i], targetStatuses)
      {
        if transitions[i].toStatusId == targetStatuses[j] {
          target := i;
          break;
        }
      }
    }
    assert transitions[..|transitions|] == transitions;
  }

  /** The least-element characterisation of MinColumn. */
  lemma MinColumnIsUnique(bound: int, values: set<int>, m: int)
    requires m <= bound && forall x :: x in values ==> m <= x
    requires m == bound || m in values
    ensures m == MinColumn(bound, values)
  {
  }

  /** The first loop of getBoardAssignees: the set of assignee names, and whether some issue has none. */
  method CollectAssignees(issues: seq<Issue>) returns (assigneeNames: set<Str>, hasUnassigned: bool)
    ensures assigneeNames == AssigneeNames(issues)
    ensures hasUnassigned == HasUnassigned(issues)
  {
    assigneeNames := {};
    hasUnassigned := false;
    for i := 0 to |issues|
      invariant assigneeNames == AssigneeNames(issues[..i])
      invariant hasUnassigned == HasUnassigned(issues[..i])
    {
      AssigneeNamesAppend(issues, i);
      var assignee := issues[i].assignee;
      if assignee.displayName != "" {
        assigneeNames := assigneeNames + {assignee.displayName};
      } else {
        hasUnassigned := true;
      }
    }
    assert issues[..|issues|] == issues;
  }

  /** The second loop of getBoardAssignees: one assignee entry per name, in no particular order. */
  method UsersNamed(names: set<Str>) returns (users: seq<User>)
    ensures |users| == |names|
    ensures DisplayNames(users) == names
    ensures forall k :: 0 <= k < |users| ==> users[k] == AssigneeUser(users[k].displayName)
  {
    users := [];
    var remaining := names;
    while remaining != {}
      invariant remaining <= names
      invariant |users| + |remaining| == |names|
      invariant DisplayNames(users) == names - remaining
      invariant forall k :: 0 <= k < |users| ==> users[k] == AssigneeUser(users[k].displayName)
      decreases |remaining|
    {
      NonEmptyHasName(remaining);
      var name :| name in remaining;
      DisplayNamesAppend(users, AssigneeUser(name));
      users := users + [AssigneeUser(name)];
      remaining := remaining - {name};
    }
  }

  /** The display names of a list of users. */
  function DisplayNames(users: seq<User>): set<Str>
  {
    set k | 0 <= k < |users| :: users[k].displayName
  }

  lemma DisplayNamesAppend(users: seq<User>, u: User)
    ensures DisplayNames(users + [u]) == DisplayNames(users) + {u.displayName}
  {
    var all := users + [u];
    assert all[|users|] == u;
    assert forall k :: 0 <= k < |users| ==> all[k] == users[k];
  }

  /** Reading one more issue adds its assignee name, or records an issue without one. */
  lemma AssigneeNamesAppend(issues: seq<Issue>, i: int)
    requires 0 <= i < |issues|
    ensures AssigneeNames(issues[..i + 1]) ==
            AssigneeNames(issues[..i]) + (if issues[i].assignee.displayName != "" then {issues[i].assignee.displayName} else {})
    ensures HasUnassigned(issues[..i + 1]) <==> HasUnassigned(issues[..i]) || issues[i].assignee.displayName == ""
  {
    assert issues[..i + 1][..i] == issues[..i];
    assert issues[..i + 1][i] == issues[i];
  }

  /** The first `i` elements are in order. */
  ghost predicate SortedUpTo(s: seq<int>, i: int)
  {
    forall p, q :: 0 <= p < q < i && q < |s| ==> s[p] <= s[q]
  }

  /** No element before `i` exceeds an element from `i` on. */
  ghost predicate SplitAt(s: seq<int>, i: int)
  {
    forall p, q :: 0 <= p < i <= q < |s| ==> s[p] <= s[q]
  }

  /** Position `i` holds the least of positions `i` to `j` - 1. */
  ghost predicate LeastFrom(s: seq<int>, i: int, j: int)
    requires 0 <= i < |s|
  {
    forall q :: i < q < j && q < |s| ==> s[i] <= s[q]
  }

  /** The exchange sort of getIssuePositionsInColumn: for each i, swap every later smaller element
      into place i. */
  method SortInPlace(a: array<int>)
    modifies a
    ensures Sorted(a[..]) && multiset(a[..]) == multiset(old(a[..]))
  {
    for i := 0 to a.Length
      invariant multiset(a[..]) == multiset(old(a[..]))
      invariant SortedUpTo(a[..], i) && SplitAt(a[..], i)
    {
      ExchangePass(a, i);
    }
  }

  /** One outer step of the exchange sort: afterwards a[i] is the least of a[i..]. */
  method ExchangePass(a: array<int>, i: int)
    requires 0 <= i < a.Length
    requires SortedUpTo(a[..], i) && SplitAt(a[..], i)
    modifies a
    ensures multiset(a[..]) == multiset(old(a[..]))
    ensures SortedUpTo(a[..], i + 1) && SplitAt(a[..], i + 1)
  {
    for j := i + 1 to a.Length
      invariant multiset(a[..]) == multiset(old(a[..]))
      invariant SortedUpTo(a[..], i) && SplitAt(a[..], i) && LeastFrom(a[..], i, j)
    {
      ExchangeStep(a, i, j);
    }
  }

  /** One comparison of the exchange sort: swap a[i] and a[j] when a[j] is smaller. */
  method ExchangeStep(a: array<int>, i: int, j: int)
    requires 0 <= i < j < a.Length
    requires SortedUpTo(a[..], i) && SplitAt(a[..], i) && LeastFrom(a[..], i, j)
    modifies a
    ensures multiset(a[..]) == multiset(old(a[..]))
    ensures SortedUpTo(a[..], i) && SplitAt(a[..], i) && LeastFrom(a[..], i, j + 1)
  {
    if a[i] > a[j] {
      SwapKeepsSplit(a[..], i, j);
      a[i], a[j] := a[j], a[i];
    }
  }

  /** Swapping a[i] with a smaller a[j] keeps the sorted prefix and the split, and a[i] becomes the
      least up to j. */
  lemma SwapKeepsSplit(s: seq<int>, i: int, j: int)
    requires 0 <= i < j < |s| && s[i] > s[j]
    requires SortedUpTo(s, i) && SplitAt(s, i) && LeastFrom(s, i, j)
    ensures var t := s[i := s[j]][j := s[i]];
            multiset(t) == multiset(s) &&
            SortedUpTo(t, i) && SplitAt(t, i) && LeastFrom(t, i, j + 1)
  {
  }

  /** The two scans of findNextIssuePosition over sorted positions. */
  method NextPositionIn(positions: seq<int>, cursorY: int, direction: int) returns (y: int)
    ensures y == NextPosition(positions, cursorY, direction)
  {
    if |positions| == 0 {
      return cursorY;
    }
    if direction > 0 {
      for k := 0 to |positions|
        invariant FirstAfter(positions, cursorY) == FirstAfter(positions[k..], cursorY)
      {
        if positions[k] > cursorY {
          return positions[k];
        }
        assert positions[k..][1..] == positions[k + 1..];
      }
      return positions[|positions| - 1];
    } else {
      var k := |positions| - 1;
      assert positions[..k + 1] == positions;
      while k >= 0
        invariant -1 <= k < |positions|
        invariant LastBefore(positions, cursorY) == LastBefore(positions[..k + 1], cursorY)
      {
        if positions[k] < cursorY {
          return positions[k];
        }
        assert positions[..k + 1][..k] == positions[..k];
        k := k - 1;
      }
      return positions[0];
    }
  }
}
