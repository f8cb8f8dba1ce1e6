/** What the board view's steps (internal/boards/board_view.go) guarantee: which issue becomes
    the highlight, where the cursor lands on each move, what moving a held issue does, what the
    assignee filter shows and what the paged load keeps. */
module BoardProperties {
  import opened Wrappers
  import opened Jira
  import opened BoardLayout
  import opened Board

  // ---------------------------------------------------------------------------------------------
  // The highlight (refreshHighlightedIssue)

  /** The scan from `i` stops at the first issue under the cursor whose key differs from the
      highlight's, and yields -1 exactly when there is none. */
  lemma {:induction false} HighlightIndexIsFirst(b: BoardState, i: nat)
    requires i <= |b.issues|
    ensures var k := HighlightIndexFrom(b, i);
            (k == -1 <==> forall j :: i <= j < |b.issues| ==> !NewlyUnderCursor(b, j)) &&
            (k != -1 ==> NewlyUnderCursor(b, k) && forall j :: i <= j < k ==> !NewlyUnderCursor(b, j))
    decreases |b.issues| - i
  {
    if i < |b.issues| && !NewlyUnderCursor(b, i) {
      HighlightIndexIsFirst(b, i + 1);
    }
  }

  /** refreshHighlightedIssue changes nothing when no issue under the cursor differs from the
      highlight; otherwise the first such issue becomes the highlight, the viewport follows the
      cursor, and nothing else changes. */
  lemma RefreshHighlightPicksFirst(b: BoardState)
    ensures (forall j :: 0 <= j < |b.issues| ==> !NewlyUnderCursor(b, j)) ==> RefreshHighlight(b) == b
    ensures (exists j :: 0 <= j < |b.issues| && NewlyUnderCursor(b, j)) ==>
            var r := RefreshHighlight(b);
            var k := r.highlightAt;
            0 <= k < |b.issues| && NewlyUnderCursor(b, k) && r.highlight == b.issues[k] &&
            (forall j :: 0 <= j < k ==> !NewlyUnderCursor(b, j)) &&
            var s := ViewportScroll(b.cursorX, b.cursorY, b.scrollX, b.scrollY, b.columnSize, b.screenX);
            r == b.(highlight := b.issues[k], highlightAt := k, scrollX := s.x, scrollY := s.y)
  {
    HighlightIndexIsFirst(b, 0);
    var k := HighlightIndexFrom(b, 0);
    if k == -1 {
      assert RefreshHighlight(b) == b;
    } else {
      assert RefreshHighlight(b) == AdjustViewport(b.(highlight := b.issues[k], highlightAt := k));
    }
  }

  /** The board apart from the highlight and the scroll offsets. */
  ghost predicate SameBoardBut(r: BoardState, b: BoardState)
  {
    r == b.(highlight := r.highlight, highlightAt := r.highlightAt, scrollX := r.scrollX, scrollY := r.scrollY)
  }

  /** refreshHighlightedIssue touches only the highlight and the scroll offsets, and nothing at all
      when the list is empty. */
  lemma RefreshHighlightMovesOnlyHighlight(b: BoardState)
    ensures SameBoardBut(RefreshHighlight(b), b)
    ensures b.issues == [] ==> RefreshHighlight(b) == b
  {
  }

  /** With distinct issue ids and row tables built from the list, no two issues share a cell. */
  lemma OneIssuePerCell(b: BoardState, i: int, j: int)
    requires Consistent(b) && DistinctIssueIds(b.issues)
    requires 0 <= i < |b.issues| && 0 <= j < |b.issues|
    requires Get(b.issuesColumn, b.issues[i].id) == Get(b.issuesColumn, b.issues[j].id)
    requires Get(b.issuesRow, b.issues[i].id) == Get(b.issuesRow, b.issues[j].id)
    ensures i == j
  {
    if i != j {
      var lo := if i < j then i else j;
      var hi := if i < j then j else i;
      LayoutRowOfIssue(b.issues, b.statusesColumnsMap, lo);
      LayoutRowOfIssue(b.issues, b.statusesColumnsMap, hi);
      RowsAreOrderedWithinColumn(b.issues, b.statusesColumnsMap, lo, hi);
    }
  }

  /** A second refreshHighlightedIssue right after the first changes nothing: the only issue under
      the cursor is the one just highlighted. */
  lemma RefreshHighlightIdempotent(b: BoardState)
    requires Consistent(b) && DistinctIssueIds(b.issues)
    ensures RefreshHighlight(RefreshHighlight(b)) == RefreshHighlight(b)
  {
    var r := RefreshHighlight(b);
    RefreshHighlightPicksFirst(b);
    if r != b {
      var k := r.highlightAt;
      forall j | 0 <= j < |r.issues| ensures !NewlyUnderCursor(r, j) {
        if Get(r.issuesColumn, r.issues[j].id) == r.cursorX && Get(r.issuesRow, r.issues[j].id) - 1 == r.cursorY {
          OneIssuePerCell(b, j, k);
        }
      }
      RefreshHighlightPicksFirst(r);
    }
  }

  // ---------------------------------------------------------------------------------------------
  // Consistency of the row tables and the highlight pointer

  lemma RefreshHighlightKeepsConsistent(b: BoardState)
    requires Consistent(b)
    ensures Consistent(RefreshHighlight(b))
  {
    var k := HighlightIndexFrom(b, 0);
    if k != -1 {
      assert RefreshHighlight(b) == AdjustViewport(b.(highlight := b.issues[k], highlightAt := k));
    }
  }

  lemma TakeTransitionKeepsConsistent(b: BoardState, t: Transition)
    requires Consistent(b)
    ensures Consistent(TakeTransition(b, t))
  {
    RefreshHighlightKeepsConsistent(CursorToIssue(RefreshRows(b.(issues :=
      if 0 <= b.highlightAt < |b.issues| then b.issues[b.highlightAt := Transitioned(b.highlight, t)] else b.issues,
      highlight := Transitioned(b.highlight, t), issueSelected := false)), Transitioned(b.highlight, t).id));
  }

  lemma ResetViewKeepsConsistent(b: BoardState)
    requires b.highlightAt == -1
    ensures Consistent(ResetView(b))
  {
    var z := RefreshRows(b).(cursorX := 0, cursorY := 0, scrollX := 0, scrollY := 0);
    assert Consistent(z);
    var c := SetInitialCursor(z);
    assert c.issues == z.issues && c.issuesRow == z.issuesRow && c.issuesColumn == z.issuesColumn &&
           c.statusesColumnsMap == z.statusesColumnsMap && c.highlightAt == -1;
    RefreshHighlightKeepsConsistent(c);
  }

  lemma MoveHorizontallyKeepsConsistent(b: BoardState, direction: int,
                                        findTransitions: Str -> Result<seq<Transition>, Str>,
                                        doTransition: (Str, Transition) -> Option<Str>)
    requires Consistent(b)
    ensures Consistent(MoveHorizontally(b, direction, findTransitions, doTransition))
  {
    var next := NextValidColumn(b.issues, b.issuesColumn, |b.columns|, b.cursorX, direction);
    if next != -1 {
      var e := EnterColumn(b, next);
      assert Consistent(e);
      assert MoveHorizontally(b, direction, findTransitions, doTransition) ==
             FollowCursor(e, direction, findTransitions, doTransition);
      if e.issueSelected {
        TransitionIssueKeepsConsistent(e, direction, findTransitions, doTransition);
      } else {
        RefreshHighlightKeepsConsistent(e);
      }
    }
  }

  lemma TransitionIssueKeepsConsistent(b: BoardState, direction: int,
                                       findTransitions: Str -> Result<seq<Transition>, Str>,
                                       doTransition: (Str, Transition) -> Option<Str>)
    requires Consistent(b)
    ensures Consistent(TransitionIssue(b, direction, findTransitions, doTransition))
  {
    match findTransitions(b.highlight.id)
    case Err(_) =>
    case Ok(ts) =>
      var k := LastMatchingTransition(ts, TargetStatuses(b, direction));
      if k != -1 {
        TakeTransitionKeepsConsistent(b, ts[k]);
      }
  }

  lemma MoveVerticallyKeepsConsistent(b: BoardState, direction: int)
    requires Consistent(b)
    ensures Consistent(MoveVertically(b, direction))
  {
    RefreshHighlightKeepsConsistent(b.(cursorY := NextPosition(Positions(b, b.cursorX), b.cursorY, direction)));
  }

  /** Every key press keeps the row tables in step with the issue list and the highlight pointer
      on the issue it names. */
  lemma HandleKeyKeepsConsistent(b: BoardState, key: Key, loading: bool,
                                 findTransitions: Str -> Result<seq<Transition>, Str>,
                                 doTransition: (Str, Transition) -> Option<Str>)
    requires Consistent(b)
    ensures Consistent(HandleKey(b, key, loading, findTransitions, doTransition))
  {
    if loading || OpensIssue(b, key, loading).Some? {
    } else if IsRight(key) {
      MoveHorizontallyKeepsConsistent(b, 1, findTransitions, doTransition);
    } else if IsLeft(key) {
      MoveHorizontallyKeepsConsistent(b, -1, findTransitions, doTransition);
    } else if IsUp(key) {
      MoveVerticallyKeepsConsistent(b, -1);
    } else if IsDown(key) {
      MoveVerticallyKeepsConsistent(b, 1);
    }
  }

  /** Applying or clearing the assignee filter leaves a consistent board, whatever the state
      before. */
  lemma FilterKeepsConsistent(b: BoardState, user: User)
    ensures Consistent(FilterBoard(b, user))
    ensures Consistent(UnfilterBoard(b))
  {
    ResetViewKeepsConsistent(b.(assigneeFilter := Some(user), issues := FilterByAssignee(b.allIssues, user), highlightAt := -1));
    ResetViewKeepsConsistent(b.(assigneeFilter := None, issues := b.allIssues, highlightAt := -1));
  }

  // ---------------------------------------------------------------------------------------------
  // Cursor moves

  /** The row the cursor takes on entering a column is the least cursor row of that column's
      issues, or 0 when it has none. */
  lemma TopPositionIsLeast(b: BoardState, c: int)
    ensures var ps := ColumnPositions(b.issues, b.issuesRow, b.issuesColumn, c);
            (!HasVisibleIssues(b.issues, b.issuesColumn, c) ==> TopPosition(b, c) == 0) &&
            (HasVisibleIssues(b.issues, b.issuesColumn, c) ==>
               TopPosition(b, c) in ps && forall q :: q in ps ==> TopPosition(b, c) <= q)
  {
    var ps := ColumnPositions(b.issues, b.issuesRow, b.issuesColumn, c);
    var s := SortPositions(ps);
    ColumnPositionsEmpty(b.issues, b.issuesRow, b.issuesColumn, c);
    SortPositionsIsSorted(ps);
    SortPositionsMultiset(ps);
    if ps != [] {
      assert s != [] by {
        assert ps[0] in multiset(ps);
      }
      assert s[0] in multiset(ps);
      forall q | q in ps ensures s[0] <= q {
        assert q in multiset(s);
        SortedHeadIsLeast(s, q);
      }
    }
  }

  /** moveCursorRight / moveCursorLeft with no column holding an issue beyond the cursor, in the
      direction of the move: nothing changes. */
  lemma MoveHorizontallyWithoutTarget(b: BoardState, direction: int, findTransitions: Str -> Result<seq<Transition>, Str>,
                                      doTransition: (Str, Transition) -> Option<Str>)
    requires direction == 1 || direction == -1
    requires -1 <= b.cursorX <= |b.columns|
    requires forall c :: 0 <= c < |b.columns| && Beyond(b.cursorX, c, direction) ==>
               !HasVisibleIssues(b.issues, b.issuesColumn, c)
    ensures MoveHorizontally(b, direction, findTransitions, doTransition) == b
  {
    NextValidColumnIsNearest(b.issues, b.issuesColumn, |b.columns|, b.cursorX, direction);
  }

  /** With no issue held, what follows the cursor's move into a column: nothing changes when no
      issue under the cursor differs from the highlight; otherwise the first such issue is
      highlighted, the view follows the cursor horizontally and scrolls back to the top. */
  lemma FollowCursorHighlightsFirst(e: BoardState, direction: int, findTransitions: Str -> Result<seq<Transition>, Str>,
                                    doTransition: (Str, Transition) -> Option<Str>)
    requires !e.issueSelected
    ensures (forall j :: 0 <= j < |e.issues| ==> !NewlyUnderCursor(e, j)) ==>
              FollowCursor(e, direction, findTransitions, doTransition) == e
    ensures (exists j :: 0 <= j < |e.issues| && NewlyUnderCursor(e, j)) ==>
              var r := FollowCursor(e, direction, findTransitions, doTransition);
              var k := r.highlightAt;
              0 <= k < |e.issues| && NewlyUnderCursor(e, k) && (forall j :: 0 <= j < k ==> !NewlyUnderCursor(e, j)) &&
              var s := ViewportScroll(e.cursorX, e.cursorY, e.scrollX, e.scrollY, e.columnSize, e.screenX);
              r == e.(highlight := e.issues[k], highlightAt := k, scrollX := s.x, scrollY := 0)
  {
    RefreshHighlightPicksFirst(e);
    HighlightIndexIsFirst(e, 0);
  }

  /** moveCursorRight / moveCursorLeft with no issue held, once the cursor has entered the column
      `e`: the board stays as entered when no issue under the cursor differs from the highlight;
      otherwise the first such issue is highlighted, the view follows the cursor horizontally and
      scrolls back to the top. */
  lemma MoveHorizontallyHighlightsFirst(b: BoardState, direction: int, findTransitions: Str -> Result<seq<Transition>, Str>,
                                        doTransition: (Str, Transition) -> Option<Str>)
    requires !b.issueSelected
    requires NextValidColumn(b.issues, b.issuesColumn, |b.columns|, b.cursorX, direction) != -1
    ensures var r := MoveHorizontally(b, direction, findTransitions, doTransition);
            var e := EnterColumn(b, NextValidColumn(b.issues, b.issuesColumn, |b.columns|, b.cursorX, direction));
            ((forall j :: 0 <= j < |b.issues| ==> !NewlyUnderCursor(e, j)) ==> r == e) &&
            ((exists j :: 0 <= j < |b.issues| && NewlyUnderCursor(e, j)) ==>
               var k := r.highlightAt;
               0 <= k < |b.issues| && NewlyUnderCursor(e, k) && (forall j :: 0 <= j < k ==> !NewlyUnderCursor(e, j)) &&
               var s := ViewportScroll(e.cursorX, e.cursorY, e.scrollX, e.scrollY, e.columnSize, e.screenX);
               r == e.(highlight := b.issues[k], highlightAt := k, scrollX := s.x, scrollY := 0))
  {
    var e := EnterColumn(b, NextValidColumn(b.issues, b.issuesColumn, |b.columns|, b.cursorX, direction));
    assert MoveHorizontally(b, direction, findTransitions, doTransition) == FollowCursor(e, direction, findTransitions, doTransition);
    FollowCursorHighlightsFirst(e, direction, findTransitions, doTransition);
  }

  /** moveCursorRight / moveCursorLeft with no issue held: the cursor goes to the column
      findNextValidColumn picks (the nearest one beyond the cursor with an issue, by
      NextValidColumnIsNearest), onto its topmost issue, and neither issue list changes; the
      highlight and the scroll then follow as MoveHorizontallyHighlightsFirst says. */
  lemma MoveHorizontallyIsNearest(b: BoardState, direction: int, findTransitions: Str -> Result<seq<Transition>, Str>,
                                  doTransition: (Str, Transition) -> Option<Str>)
    requires direction == 1 || direction == -1
    requires -1 <= b.cursorX <= |b.columns|
    requires !b.issueSelected
    requires NextValidColumn(b.issues, b.issuesColumn, |b.columns|, b.cursorX, direction) != -1
    ensures var r := MoveHorizontally(b, direction, findTransitions, doTransition);
            var next := NextValidColumn(b.issues, b.issuesColumn, |b.columns|, b.cursorX, direction);
            var ps := ColumnPositions(b.issues, b.issuesRow, b.issuesColumn, next);
            r.cursorX == next && r.cursorY in ps && (forall q :: q in ps ==> r.cursorY <= q) &&
            SameBoardBut(r, EnterColumn(b, next))
    ensures var r := MoveHorizontally(b, direction, findTransitions, doTransition);
            var e := EnterColumn(b, NextValidColumn(b.issues, b.issuesColumn, |b.columns|, b.cursorX, direction));
            ((forall j :: 0 <= j < |b.issues| ==> !NewlyUnderCursor(e, j)) ==> r == e) &&
            ((exists j :: 0 <= j < |b.issues| && NewlyUnderCursor(e, j)) ==>
               var k := r.highlightAt;
               0 <= k < |b.issues| && NewlyUnderCursor(e, k) && (forall j :: 0 <= j < k ==> !NewlyUnderCursor(e, j)) &&
               var s := ViewportScroll(e.cursorX, e.cursorY, e.scrollX, e.scrollY, e.columnSize, e.screenX);
               r == e.(highlight := b.issues[k], highlightAt := k, scrollX := s.x, scrollY := 0))
  {
    var next := NextValidColumn(b.issues, b.issuesColumn, |b.columns|, b.cursorX, direction);
    NextValidColumnIsNearest(b.issues, b.issuesColumn, |b.columns|, b.cursorX, direction);
    var e := EnterColumn(b, next);
    TopPositionIsLeast(b, next);
    RefreshHighlightMovesOnlyHighlight(e);
    MoveHorizontallyHighlightsFirst(b, direction, findTransitions, doTransition);
  }

  /** Holding an issue, a horizontal move puts the cursor in the next column first; when the
      issue cannot be moved there (the transition list fails, no transition leads into that
      column, or the chosen transition fails) the cursor stays moved and the issue stays held,
      unchanged. */
  lemma HeldMoveFailureKeepsCursorMoved(b: BoardState, direction: int, findTransitions: Str -> Result<seq<Transition>, Str>,
                                        doTransition: (Str, Transition) -> Option<Str>)
    requires direction == 1 || direction == -1
    requires -1 <= b.cursorX <= |b.columns|
    requires b.issueSelected
    requires NextValidColumn(b.issues, b.issuesColumn, |b.columns|, b.cursorX, direction) != -1
    requires TransitionFails(b, direction, findTransitions, doTransition)
    ensures var r := MoveHorizontally(b, direction, findTransitions, doTransition);
            var next := NextValidColumn(b.issues, b.issuesColumn, |b.columns|, b.cursorX, direction);
            r.cursorX == next && r.cursorX != b.cursorX && r.cursorY == TopPosition(b, next) &&
            r.issueSelected && r.issues == b.issues && r.highlight == b.highlight
  {
    var next := NextValidColumn(b.issues, b.issuesColumn, |b.columns|, b.cursorX, direction);
    NextValidColumnIsNearest(b.issues, b.issuesColumn, |b.columns|, b.cursorX, direction);
    var e := EnterColumn(b, next);
    assert TargetStatuses(e, direction) == TargetStatuses(b, direction);
    TransitionIssueFailureChangesNothing(e, direction, findTransitions, doTransition);
  }

  /** findNextIssuePosition over the sorted positions of a column, stated against the column's
      positions in list order. */
  lemma NextPositionInColumn(ps: seq<int>, cursorY: int, direction: int)
    ensures var y := NextPosition(SortPositions(ps), cursorY, direction);
            (ps == [] ==> y == cursorY) &&
            (ps != [] ==> y in ps) &&
            (ps != [] && direction > 0 ==>
               if exists q :: q in ps && q > cursorY
               then y > cursorY && forall q :: q in ps && q > cursorY ==> y <= q
               else forall q :: q in ps ==> q <= y) &&
            (ps != [] && direction <= 0 ==>
               if exists q :: q in ps && q < cursorY
               then y < cursorY && forall q :: q in ps && q < cursorY ==> q <= y
               else forall q :: q in ps ==> y <= q)
  {
    var s := SortPositions(ps);
    SortPositionsIsSorted(ps);
    SortPositionsMultiset(ps);
    SameElements(ps, s);
    NextPositionIsNearest(s, cursorY, direction);
    SortedEnds(s);
  }

  lemma SameElements(a: seq<int>, b: seq<int>)
    requires multiset(a) == multiset(b)
    ensures forall q :: q in a <==> q in b
  {
    forall q ensures q in a <==> q in b {
      assert q in a <==> q in multiset(a);
      assert q in b <==> q in multiset(b);
    }
  }

  lemma SortedEnds(s: seq<int>)
    requires Sorted(s)
    ensures s != [] ==> forall q :: q in s ==> s[0] <= q <= s[|s| - 1]
  {
    if s != [] {
      forall q | q in s ensures s[0] <= q <= s[|s| - 1] {
        var i :| 0 <= i < |s| && s[i] == q;
      }
    }
  }

  /** Up and down: outside a column with issues nothing changes; otherwise the cursor stays in
      its column and goes to the nearest issue row above (up) or below (down) it, or to the first
      (up) or last (down) row of the column when there is none that way; the lists stay as they
      are. */
  lemma MoveVerticallyIsNearest(b: BoardState, direction: int)
    ensures var r := MoveVertically(b, direction);
            var ps := ColumnPositions(b.issues, b.issuesRow, b.issuesColumn, b.cursorX);
            (ps == [] ==> r == b) &&
            (ps != [] ==>
               r.cursorX == b.cursorX && r.issues == b.issues && r.issuesRow == b.issuesRow && r.cursorY in ps &&
               (direction > 0 ==>
                  if exists q :: q in ps && q > b.cursorY
                  then r.cursorY > b.cursorY && forall q :: q in ps && q > b.cursorY ==> r.cursorY <= q
                  else forall q :: q in ps ==> q <= r.cursorY) &&
               (direction <= 0 ==>
                  if exists q :: q in ps && q < b.cursorY
                  then r.cursorY < b.cursorY && forall q :: q in ps && q < b.cursorY ==> q <= r.cursorY
                  else forall q :: q in ps ==> r.cursorY <= q))
  {
    var ps := ColumnPositions(b.issues, b.issuesRow, b.issuesColumn, b.cursorX);
    ColumnPositionsEmpty(b.issues, b.issuesRow, b.issuesColumn, b.cursorX);
    NextPositionInColumn(ps, b.cursorY, direction);
    var y := NextPosition(Positions(b, b.cursorX), b.cursorY, direction);
    RefreshHighlightMovesOnlyHighlight(b.(cursorY := y));
  }

  // ---------------------------------------------------------------------------------------------
  // Moving the highlighted issue (moveIssue)

  /** moveIssue gives up: the transition list cannot be fetched, no transition leads into a
      status of the neighbouring column, or the last one that does fails. */
  ghost predicate TransitionFails(b: BoardState, direction: int, findTransitions: Str -> Result<seq<Transition>, Str>,
                                  doTransition: (Str, Transition) -> Option<Str>)
  {
    match findTransitions(b.highlight.id)
    case Err(_) => true
    case Ok(ts) =>
      var targets := TargetStatuses(b, direction);
      (forall i :: 0 <= i < |ts| ==> ts[i].toStatusId !in targets) ||
      exists k :: 0 <= k < |ts| && ts[k].toStatusId in targets &&
                  (forall i :: k < i < |ts| ==> ts[i].toStatusId !in targets) &&
                  doTransition(b.highlight.id, ts[k]).Some?
  }

  /** When moveIssue gives up the board does not change. */
  lemma TransitionIssueFailureChangesNothing(b: BoardState, direction: int,
                                             findTransitions: Str -> Result<seq<Transition>, Str>,
                                             doTransition: (Str, Transition) -> Option<Str>)
    requires TransitionFails(b, direction, findTransitions, doTransition)
    ensures TransitionIssue(b, direction, findTransitions, doTransition) == b
  {
    match findTransitions(b.highlight.id)
    case Err(_) =>
    case Ok(ts) =>
      var targets := TargetStatuses(b, direction);
      LastMatchingTransitionIsLast(ts, targets);
      var last := LastMatchingTransition(ts, targets);
      if !forall i :: 0 <= i < |ts| ==> ts[i].toStatusId !in targets {
        var k :| 0 <= k < |ts| && ts[k].toStatusId in targets &&
                 (forall i :: k < i < |ts| ==> ts[i].toStatusId !in targets) &&
                 doTransition(b.highlight.id, ts[k]).Some?;
        assert k == last;
      }
  }

  /** A successful move: the last transition into a status of the neighbouring column is taken;
      the highlighted issue gets that status, in `issues` too; the issue is no longer held;
      `allIssues` is untouched; the tables stay consistent and the cursor sits on the issue in its
      new column, one row below the issues before it there; the highlight stays on the issue and
      the viewport does not move. */
  lemma TransitionIssueSucceeds(b: BoardState, direction: int, findTransitions: Str -> Result<seq<Transition>, Str>,
                                doTransition: (Str, Transition) -> Option<Str>)
    requires Consistent(b) && DistinctIssueIds(b.issues) && 0 <= b.highlightAt < |b.issues|
    requires findTransitions(b.highlight.id).Ok?
    requires var ts := findTransitions(b.highlight.id).value;
             var k := LastMatchingTransition(ts, TargetStatuses(b, direction));
             k != -1 && doTransition(b.highlight.id, ts[k]).None?
    ensures var ts := findTransitions(b.highlight.id).value;
            var targets := TargetStatuses(b, direction);
            var k := LastMatchingTransition(ts, targets);
            var t := ts[k];
            var r := TransitionIssue(b, direction, findTransitions, doTransition);
            t.toStatusId in targets && (forall i :: k < i < |ts| ==> ts[i].toStatusId !in targets) &&
            r.highlight == b.highlight.(status := Status(t.toStatusId, t.toName)) &&
            r.highlightAt == b.highlightAt && r.issues == b.issues[b.highlightAt := r.highlight] &&
            !r.issueSelected && r.allIssues == b.allIssues &&
            Consistent(r) && DistinctIssueIds(r.issues) &&
            r.cursorX == Get(b.statusesColumnsMap, t.toStatusId) &&
            r.cursorY == CountInColumn(b.issues[..b.highlightAt], b.statusesColumnsMap, r.cursorX) &&
            r.scrollX == b.scrollX && r.scrollY == b.scrollY
  {
    var ts := findTransitions(b.highlight.id).value;
    LastMatchingTransitionIsLast(ts, TargetStatuses(b, direction));
    var k := LastMatchingTransition(ts, TargetStatuses(b, direction));
    assert TransitionIssue(b, direction, findTransitions, doTransition) == TakeTransition(b, ts[k]);
    TakeTransitionOfHighlight(b, ts[k]);
  }

  /** The highlighted issue takes transition `t`: it changes status in place, the tables stay
      consistent, the cursor sits on it in its new column and the highlight stays on it. */
  lemma TakeTransitionOfHighlight(b: BoardState, t: Transition)
    requires Consistent(b) && DistinctIssueIds(b.issues) && 0 <= b.highlightAt < |b.issues|
    ensures var r := TakeTransition(b, t);
            r.highlight == b.highlight.(status := Status(t.toStatusId, t.toName)) &&
            r.highlightAt == b.highlightAt && r.issues == b.issues[b.highlightAt := r.highlight] &&
            !r.issueSelected && r.allIssues == b.allIssues &&
            Consistent(r) && DistinctIssueIds(r.issues) &&
            r.cursorX == Get(b.statusesColumnsMap, t.toStatusId) &&
            r.cursorY == CountInColumn(b.issues[..b.highlightAt], b.statusesColumnsMap, r.cursorX) &&
            r.scrollX == b.scrollX && r.scrollY == b.scrollY
  {
    var h := b.highlightAt;
    var moved := Transitioned(b.highlight, t);
    var issues := b.issues[h := moved];
    ReplaceKeepsDistinct(b.issues, h, moved);
    var b1 := RefreshRows(b.(issues := issues, highlight := moved, issueSelected := false));
    var c := CursorToIssue(b1, moved.id);
    LayoutRowOfIssue(issues, b.statusesColumnsMap, h);
    assert issues[..h] == b.issues[..h];
    TakeTransitionKeepsConsistent(b, t);
    NothingNewUnderCursor(c, h);
    RefreshHighlightPicksFirst(c);
  }

  /** Replacing an issue by one with the same id keeps the ids distinct. */
  lemma ReplaceKeepsDistinct(issues: seq<Issue>, h: int, moved: Issue)
    requires DistinctIssueIds(issues) && 0 <= h < |issues| && moved.id == issues[h].id
    ensures DistinctIssueIds(issues[h := moved])
  {
    var r := issues[h := moved];
    forall i, j | 0 <= i < j < |r| ensures r[i].id != r[j].id {
      assert r[i].id == issues[i].id && r[j].id == issues[j].id;
    }
  }

  /** When the cursor sits on the highlighted issue's cell, no other issue is under it. */
  lemma NothingNewUnderCursor(c: BoardState, h: int)
    requires Consistent(c) && DistinctIssueIds(c.issues) && 0 <= h < |c.issues|
    requires c.highlight == c.issues[h]
    requires c.cursorX == Get(c.issuesColumn, c.issues[h].id) && c.cursorY == Get(c.issuesRow, c.issues[h].id) - 1
    ensures forall j :: 0 <= j < |c.issues| ==> !NewlyUnderCursor(c, j)
  {
    forall j | 0 <= j < |c.issues| ensures !NewlyUnderCursor(c, j) {
      if Get(c.issuesColumn, c.issues[j].id) == c.cursorX && Get(c.issuesRow, c.issues[j].id) - 1 == c.cursorY {
        OneIssuePerCell(c, j, h);
      }
    }
  }

  // ---------------------------------------------------------------------------------------------
  // Assignee filter

  /** The board apart from the row tables, the cursor, the highlight and the scroll offsets. */
  ghost predicate SameListsAs(r: BoardState, b: BoardState)
  {
    r == b.(issuesRow := r.issuesRow, issuesColumn := r.issuesColumn, cursorX := r.cursorX, cursorY := r.cursorY,
            highlight := r.highlight, highlightAt := r.highlightAt, scrollX := r.scrollX, scrollY := r.scrollY)
  }

  /** The tail of both filter operations rebuilds the tables from the list and keeps everything
      but the tables, the cursor, the highlight and the scroll offsets; with an empty list the
      cursor and the view stay at the origin. */
  lemma ResetViewFrame(b: BoardState)
    ensures var r := ResetView(b);
            SameListsAs(r, b) && r.issuesRow == RowLayout(b.issues, b.statusesColumnsMap).row &&
            r.issuesColumn == RowLayout(b.issues, b.statusesColumnsMap).column &&
            (b.issues == [] ==> r.cursorX == 0 && r.cursorY == 0 && r.scrollX == 0 && r.scrollY == 0)
  {
    var b1 := RefreshRows(b).(cursorX := 0, cursorY := 0, scrollX := 0, scrollY := 0);
    var b2 := SetInitialCursor(b1);
    RefreshHighlightMovesOnlyHighlight(b2);
    if b.issues == [] {
      assert b1.issuesColumn == map[];
    }
  }

  /** The cursor the tail of the filter operations settles on depends only on the list, the status
      table and the column offsets. */
  lemma ResetViewCursor(b: BoardState, c: BoardState)
    requires b.issues == c.issues && b.statusesColumnsMap == c.statusesColumnsMap && b.columnsX == c.columnsX
    ensures ResetView(b).cursorX == ResetView(c).cursorX && ResetView(b).cursorY == ResetView(c).cursorY
  {
    RefreshHighlightMovesOnlyHighlight(SetInitialCursor(RefreshRows(b).(cursorX := 0, cursorY := 0, scrollX := 0, scrollY := 0)));
    RefreshHighlightMovesOnlyHighlight(SetInitialCursor(RefreshRows(c).(cursorX := 0, cursorY := 0, scrollX := 0, scrollY := 0)));
  }

  /** applyAssigneeFilter shows exactly the issues of `allIssues` assigned to `user` and keeps
      `allIssues`; an empty result leaves the cursor and the view at the origin. */
  lemma FilterBoardShowsMatches(b: BoardState, user: User)
    ensures var r := FilterBoard(b, user);
            r.assigneeFilter == Some(user) && r.allIssues == b.allIssues &&
            (forall x :: x in r.issues <==> x in b.allIssues && MatchesAssignee(user, x)) &&
            (r.issues == [] ==> r.cursorX == 0 && r.cursorY == 0 && r.scrollX == 0 && r.scrollY == 0)
  {
    FilterByAssigneeMembers(b.allIssues, user);
    ResetViewFrame(b.(assigneeFilter := Some(user), issues := FilterByAssignee(b.allIssues, user), highlightAt := -1));
  }

  /** clearAssigneeFilter after applyAssigneeFilter lands on the same list, tables and cursor as
      clearing straight away: the filter leaves nothing behind but the highlight and the scroll. */
  lemma ClearUndoesFilter(b: BoardState, user: User)
    ensures var r := UnfilterBoard(FilterBoard(b, user));
            var u := UnfilterBoard(b);
            r.issues == b.allIssues && r.assigneeFilter == None &&
            r.issues == u.issues && r.issuesRow == u.issuesRow && r.issuesColumn == u.issuesColumn &&
            r.cursorX == u.cursorX && r.cursorY == u.cursorY && r.allIssues == u.allIssues
  {
    var f0 := b.(assigneeFilter := Some(user), issues := FilterByAssignee(b.allIssues, user), highlightAt := -1);
    var f := FilterBoard(b, user);
    ResetViewFrame(f0);
    var c1 := f.(assigneeFilter := None, issues := f.allIssues, highlightAt := -1);
    var c2 := b.(assigneeFilter := None, issues := b.allIssues, highlightAt := -1);
    ResetViewFrame(c1);
    ResetViewFrame(c2);
    ResetViewCursor(c1, c2);
  }

  // ---------------------------------------------------------------------------------------------
  // The paged load (Init)

  /** The page loop only appends to what it has; a failure can only happen while fewer than 500
      issues are held; without requests left it returns what it has. */
  lemma {:induction false} LoadPagesKeepsGathered(getPage: int -> Result<Page, Str>, page: nat, acc: seq<Issue>, fuel: nat)
    ensures var l := LoadPages(getPage, page, acc, fuel);
            acc <= l.issues && (l.failed ==> |l.issues| < MaxIssuesNumber) &&
            (fuel == 0 || |acc| >= MaxIssuesNumber ==> l == Loaded(acc, false))
    decreases fuel
  {
    if |acc| < MaxIssuesNumber && fuel > 0 {
      match getPage(page * IssueFetchBatchSize)
      case Err(_) =>
      case Ok(p) =>
        var acc' := acc + p.issues;
        if |acc'| < p.total {
          LoadPagesKeepsGathered(getPage, page + 1, acc', fuel - 1);
          assert acc <= acc';
        }
    }
  }

  /** Init after a failed request: `allIssues` holds the pages gathered before it (fewer than 500
      issues) and nothing else changes. */
  lemma LoadBoardFailure(b: BoardState, getPage: int -> Result<Page, Str>, maxRequests: nat)
    requires LoadPages(getPage, 0, [], maxRequests).failed
    ensures var l := LoadPages(getPage, 0, [], maxRequests);
            LoadBoard(b, getPage, maxRequests) == b.(allIssues := l.issues) && |l.issues| < MaxIssuesNumber
  {
    LoadPagesKeepsGathered(getPage, 0, [], maxRequests);
  }

  /** Init keeps the tables consistent, whether or not a request fails. */
  lemma LoadBoardKeepsConsistent(b: BoardState, getPage: int -> Result<Page, Str>, maxRequests: nat)
    requires Consistent(b)
    ensures Consistent(LoadBoard(b, getPage, maxRequests))
  {
    ShowLoadedKeepsConsistent(b, LoadPages(getPage, 0, [], maxRequests));
  }

  lemma ShowLoadedKeepsConsistent(b: BoardState, l: Loaded)
    requires Consistent(b)
    ensures Consistent(ShowLoaded(b, l))
  {
    var b1 := b.(allIssues := l.issues);
    if !l.failed {
      match b.assigneeFilter
      case Some(user) =>
        FilterKeepsConsistent(b1, user);
      case None =>
        var b0 := RefreshRows(b1.(issues := l.issues, highlightAt := -1));
        assert Consistent(b0);
        var b2 := SetInitialCursor(b0);
        assert Consistent(b2);
        RefreshHighlightKeepsConsistent(b2);
    }
  }

  /** Init when every request succeeds and no filter is active: `allIssues` and `issues` are both
      what was loaded. */
  lemma LoadBoardUnfiltered(b: BoardState, getPage: int -> Result<Page, Str>, maxRequests: nat)
    requires !LoadPages(getPage, 0, [], maxRequests).failed && b.assigneeFilter.None?
    ensures var l := LoadPages(getPage, 0, [], maxRequests);
            var r := LoadBoard(b, getPage, maxRequests);
            r.allIssues == l.issues && r.issues == l.issues
  {
    var l := LoadPages(getPage, 0, [], maxRequests);
    var b2 := SetInitialCursor(RefreshRows(b.(allIssues := l.issues, issues := l.issues, highlightAt := -1)));
    RefreshHighlightMovesOnlyHighlight(b2);
  }

  /** Init when every request succeeds and a filter is active: `allIssues` is what was loaded and
      the board shows exactly its issues the filter keeps. */
  lemma LoadBoardFiltered(b: BoardState, getPage: int -> Result<Page, Str>, maxRequests: nat, user: User)
    requires !LoadPages(getPage, 0, [], maxRequests).failed && b.assigneeFilter == Some(user)
    ensures var l := LoadPages(getPage, 0, [], maxRequests);
            var r := LoadBoard(b, getPage, maxRequests);
            r.allIssues == l.issues && forall x :: x in r.issues <==> x in l.issues && MatchesAssignee(user, x)
  {
    var l := LoadPages(getPage, 0, [], maxRequests);
    FilterBoardShowsMatches(b.(allIssues := l.issues), user);
  }
}
