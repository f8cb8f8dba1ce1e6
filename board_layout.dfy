/** The data-shaping part of the Kanban board (internal/boards/board_view.go): which configured
    columns survive, where every status and issue lands, the scroll arithmetic and the assignee
    filter. Everything here is a value-level definition; the board object in BoardView is proved
    against these definitions. */
module BoardLayout {
  import opened Wrappers
  import opened Text
  import opened Jira

  // ---------------------------------------------------------------------------------------------
  // Column mapping (NewBoardView)

  /** The three tables NewBoardView derives from the column configuration: status id to column
      index, column index to its status ids, and the kept column names. */
  datatype ColumnMap = ColumnMap(statusColumn: map<Str, int>, columnStatuses: map<int, seq<Str>>, names: seq<Str>)

  /** The configured columns that have at least one status, in configuration order. */
  function KeptColumns(cfg: seq<ColumnConfig>): (kept: seq<ColumnConfig>)
    ensures |kept| <= |cfg|
    ensures forall j :: 0 <= j < |kept| ==> kept[j].statuses != [] && kept[j] in cfg
  {
    if cfg == [] then []
    else
      var kept := KeptColumns(cfg[..|cfg| - 1]);
      if cfg[|cfg| - 1].statuses == [] then kept else kept + [cfg[|cfg| - 1]]
  }

  /** `kept` is `cfg` read at the strictly increasing indices `idx`, and every column left out has
      no status. */
  ghost predicate PicksColumnsWithStatus(cfg: seq<ColumnConfig>, kept: seq<ColumnConfig>, idx: seq<int>)
  {
    |idx| == |kept| &&
    (forall k :: 0 <= k < |idx| ==> 0 <= idx[k] < |cfg| && kept[k] == cfg[idx[k]]) &&
    (forall k, l :: 0 <= k < l < |idx| ==> idx[k] < idx[l]) &&
    (forall i :: 0 <= i < |cfg| && i !in idx ==> cfg[i].statuses == [])
  }

  /** One step of `KeptColumns` over a column without status: the picks of the columns before it
      still pick exactly the columns with statuses. */
  lemma KeptColumnsSkip(cfg: seq<ColumnConfig>, kept: seq<ColumnConfig>, prev: seq<int>)
    requires cfg != [] && cfg[|cfg| - 1].statuses == []
    requires PicksColumnsWithStatus(cfg[..|cfg| - 1], kept, prev)
    ensures PicksColumnsWithStatus(cfg, kept, prev)
  {
    var n := |cfg| - 1;
    var init := cfg[..n];
    forall k | 0 <= k < |prev| ensures 0 <= prev[k] < |cfg| && kept[k] == cfg[prev[k]] {
      assert init[prev[k]] == cfg[prev[k]];
    }
    forall i | 0 <= i < |cfg| && i !in prev ensures cfg[i].statuses == [] {
      if i < n { assert init[i] == cfg[i]; }
    }
  }

  /** One step of `KeptColumns` over a column with statuses: it is picked at its own index. */
  lemma KeptColumnsAppend(cfg: seq<ColumnConfig>, keptInit: seq<ColumnConfig>, prev: seq<int>)
    requires cfg != [] && cfg[|cfg| - 1].statuses != []
    requires PicksColumnsWithStatus(cfg[..|cfg| - 1], keptInit, prev)
    ensures PicksColumnsWithStatus(cfg, keptInit + [cfg[|cfg| - 1]], prev + [|cfg| - 1])
  {
    var n := |cfg| - 1;
    var init := cfg[..n];
    var kept := keptInit + [cfg[n]];
    var idx := prev + [n];
    forall k | 0 <= k < |idx| ensures 0 <= idx[k] < |cfg| && kept[k] == cfg[idx[k]] {
      if k < |prev| { assert init[prev[k]] == cfg[prev[k]]; }
    }
    forall i | 0 <= i < |cfg| && i !in idx ensures cfg[i].statuses == [] {
      assert init[i] == cfg[i];
    }
  }

  /** The kept columns are the columns of `cfg` with statuses, taken at increasing positions: `idx`
      gives, for each kept column, where it stands in the configuration, and every column left
      out has no status. */
  lemma {:induction false} KeptColumnsInOrder(cfg: seq<ColumnConfig>) returns (idx: seq<int>)
    ensures PicksColumnsWithStatus(cfg, KeptColumns(cfg), idx)
    decreases |cfg|
  {
    if cfg == [] {
      idx := [];
    } else {
      var init := cfg[..|cfg| - 1];
      var prev := KeptColumnsInOrder(init);
      if cfg[|cfg| - 1].statuses == [] {
        KeptColumnsSkip(cfg, KeptColumns(init), prev);
        idx := prev;
      } else {
        KeptColumnsAppend(cfg, KeptColumns(init), prev);
        idx := prev + [|cfg| - 1];
      }
    }
  }

  /** No configured column with a status is dropped. */
  lemma KeptColumnsComplete(cfg: seq<ColumnConfig>)
    ensures forall i :: 0 <= i < |cfg| && cfg[i].statuses != [] ==> cfg[i] in KeptColumns(cfg)
  {
    var idx := KeptColumnsInOrder(cfg);
    forall i | 0 <= i < |cfg| && cfg[i].statuses != [] ensures cfg[i] in KeptColumns(cfg) {
      var k :| 0 <= k < |idx| && idx[k] == i;
      assert KeptColumns(cfg)[k] == cfg[i];
    }
  }

  /** `m` after every id of `ids` has been mapped to `col`. */
  function AssignColumn(m: map<Str, int>, ids: seq<Str>, col: int): (r: map<Str, int>)
    ensures forall id :: id in r <==> id in m || id in ids
    ensures forall id :: id in r ==> r[id] == (if id in ids then col else m[id])
  {
    if ids == [] then m else AssignColumn(m, ids[..|ids| - 1], col)[ids[|ids| - 1] := col]
  }

  /** The tables after the columns of `cfg` have been walked in order: a column without statuses is
      skipped and takes no index, every other one takes the next index. */
  function ColumnMapping(cfg: seq<ColumnConfig>): ColumnMap
  {
    if cfg == [] then ColumnMap(map[], map[], [])
    else
      var cm := ColumnMapping(cfg[..|cfg| - 1]);
      var c := cfg[|cfg| - 1];
      if c.statuses == [] then cm
      else ColumnMap(AssignColumn(cm.statusColumn, c.statuses, |cm.names|),
                     cm.columnStatuses[|cm.names| := c.statuses], cm.names + [c.name])
  }

  /** The kept columns get the indices 0..k-1 in configuration order: their names, in order, and
      each index lists its column's status ids in order; no other index exists. */
  lemma {:induction false} ColumnsAreKeptInOrder(cfg: seq<ColumnConfig>)
    ensures var cm := ColumnMapping(cfg);
            var kept := KeptColumns(cfg);
            |cm.names| == |kept| &&
            (forall j :: 0 <= j < |kept| ==> cm.names[j] == kept[j].name) &&
            (forall j :: j in cm.columnStatuses <==> 0 <= j < |kept|) &&
            (forall j :: 0 <= j < |kept| ==> cm.columnStatuses[j] == kept[j].statuses)
    decreases |cfg|
  {
    if cfg != [] {
      ColumnsAreKeptInOrder(cfg[..|cfg| - 1]);
    }
  }

  /** Some column of `columns` lists `id`. */
  predicate Listed(columns: seq<ColumnConfig>, id: Str)
  {
    exists j :: 0 <= j < |columns| && id in columns[j].statuses
  }

  lemma ListedAppend(columns: seq<ColumnConfig>, c: ColumnConfig, id: Str)
    ensures Listed(columns + [c], id) <==> Listed(columns, id) || id in c.statuses
  {
    var all := columns + [c];
    if id in c.statuses {
      assert all[|columns|] == c;
    }
    if Listed(columns, id) {
      var j :| 0 <= j < |columns| && id in columns[j].statuses;
      assert all[j] == columns[j];
    }
    if Listed(all, id) {
      var j :| 0 <= j < |all| && id in all[j].statuses;
      if j < |columns| {
        assert all[j] == columns[j];
      }
    }
  }

  /** A status id is mapped iff some kept column lists it. */
  lemma {:induction false} StatusMappedIffListed(cfg: seq<ColumnConfig>, id: Str)
    ensures id in ColumnMapping(cfg).statusColumn <==> Listed(KeptColumns(cfg), id)
    decreases |cfg|
  {
    if cfg != [] {
      var init := cfg[..|cfg| - 1];
      StatusMappedIffListed(init, id);
      var c := cfg[|cfg| - 1];
      if c.statuses != [] {
        ListedAppend(KeptColumns(init), c, id);
      }
    }
  }

  /** A mapped status id goes to the LAST kept column that lists it: a later column overwrites an
      earlier one. */
  lemma {:induction false} StatusMapsToLastColumn(cfg: seq<ColumnConfig>, id: Str)
    requires id in ColumnMapping(cfg).statusColumn
    ensures var col := ColumnMapping(cfg).statusColumn[id];
            var kept := KeptColumns(cfg);
            0 <= col < |kept| && id in kept[col].statuses &&
            forall j :: col < j < |kept| ==> id !in kept[j].statuses
    decreases |cfg|
  {
    var init := cfg[..|cfg| - 1];
    var kept0 := KeptColumns(init);
    var kept := KeptColumns(cfg);
    var c := cfg[|cfg| - 1];
    ColumnsAreKeptInOrder(init);
    if c.statuses != [] {
      assert kept == kept0 + [c];
      if id in c.statuses {
        assert kept[|kept0|] == c;
      } else {
        StatusMapsToLastColumn(init, id);
        forall j | ColumnMapping(cfg).statusColumn[id] < j < |kept| ensures id !in kept[j].statuses {
          if j < |kept0| {
            assert kept[j] == kept0[j];
          }
        }
      }
    } else {
      StatusMapsToLastColumn(init, id);
    }
  }

  /** When no status id is listed by two kept columns, every status of kept column j maps to j. */
  lemma StatusMapsToItsColumn(cfg: seq<ColumnConfig>, j: int, id: Str)
    requires var kept := KeptColumns(cfg);
             forall a, b :: 0 <= a < b < |kept| ==> forall s :: s in kept[a].statuses ==> s !in kept[b].statuses
    requires 0 <= j < |KeptColumns(cfg)| && id in KeptColumns(cfg)[j].statuses
    ensures id in ColumnMapping(cfg).statusColumn && ColumnMapping(cfg).statusColumn[id] == j
  {
    StatusMappedIffListed(cfg, id);
    StatusMapsToLastColumn(cfg, id);
  }

  /** NewBoardView's loop: skip columns without statuses, give each other column the next index,
      map its statuses to that index and record its name. */
  method MapColumns(cfg: seq<ColumnConfig>) returns (statusColumn: map<Str, int>,
                                                     columnStatuses: map<int, seq<Str>>, columns: seq<Str>)
    ensures ColumnMap(statusColumn, columnStatuses, columns) == ColumnMapping(cfg)
  {
    var col := 0;
    statusColumn := map[];
    columnStatuses := map[];
    columns := [];
    for i := 0 to |cfg|
      invariant ColumnMap(statusColumn, columnStatuses, columns) == ColumnMapping(cfg[..i])
      invariant col == |columns|
    {
      assert cfg[..i + 1][..i] == cfg[..i];
      var column := cfg[i];
      if column.statuses == [] {
        continue;
      }
      ColumnsAreKeptInOrder(cfg[..i]);
      if col !in columnStatuses {
        columnStatuses := columnStatuses[col := []];
      }
      statusColumn, columnStatuses := AssignStatuses(statusColumn, columnStatuses, column.statuses, col);
      columns := columns + [column.name];
      col := col + 1;
    }
    assert cfg[..|cfg|] == cfg;
  }

  /** NewBoardView's inner loop: map each status id of a column to its index and append it to the
      index's (empty) list. */
  method AssignStatuses(statusColumn0: map<Str, int>, columnStatuses0: map<int, seq<Str>>, statuses: seq<Str>, col: int)
    returns (statusColumn: map<Str, int>, columnStatuses: map<int, seq<Str>>)
    requires col in columnStatuses0 && columnStatuses0[col] == []
    ensures statusColumn == AssignColumn(statusColumn0, statuses, col)
    ensures columnStatuses == columnStatuses0[col := statuses]
  {
    statusColumn := statusColumn0;
    columnStatuses := columnStatuses0;
    for k := 0 to |statuses|
      invariant statusColumn == AssignColumn(statusColumn0, statuses[..k], col)
      invariant columnStatuses == columnStatuses0[col := statuses[..k]]
    {
      assert statuses[..k + 1][..k] == statuses[..k];
      assert statuses[..k] + [statuses[k]] == statuses[..k + 1];
      statusColumn := statusColumn[statuses[k] := col];
      columnStatuses := columnStatuses[col := columnStatuses[col] + [statuses[k]]];
    }
    assert statuses[..|statuses|] == statuses;
  }

  // ---------------------------------------------------------------------------------------------
  // Row layout (refreshIssuesRows)

  /** The column an issue is drawn in: its status's column, or column 0 when the status is not on
      the board (a missing key of a Go map reads as zero). */
  function ColumnOf(statusColumn: map<Str, int>, issue: Issue): int
  {
    Get(statusColumn, issue.status.id)
  }

  /** refreshIssuesRows' result: each issue id's row (1-based) and column, and the running count of
      issues per column. */
  datatype Layout = Layout(row: map<Str, int>, column: map<Str, int>, counts: map<int, int>)

  /** The layout after walking `issues` in order from empty tables: an issue takes the row after
      the last one used in its column. */
  function RowLayout(issues: seq<Issue>, statusColumn: map<Str, int>): Layout
  {
    if issues == [] then Layout(map[], map[], map[])
    else
      var l := RowLayout(issues[..|issues| - 1], statusColumn);
      var issue := issues[|issues| - 1];
      var c := ColumnOf(statusColumn, issue);
      var y := Get(l.counts, c) + 1;
      Layout(l.row[issue.id := y], l.column[issue.id := c], l.counts[c := y])
  }

  /** How many of `issues` are in column `c`. */
  function CountInColumn(issues: seq<Issue>, statusColumn: map<Str, int>, c: int): (n: nat)
    ensures n <= |issues|
  {
    if issues == [] then 0
    else CountInColumn(issues[..|issues| - 1], statusColumn, c) +
         (if ColumnOf(statusColumn, issues[|issues| - 1]) == c then 1 else 0)
  }

  ghost predicate DistinctIssueIds(issues: seq<Issue>)
  {
    forall i, j :: 0 <= i < j < |issues| ==> issues[i].id != issues[j].id
  }

  /** The tables are rebuilt from empty: exactly the ids of `issues` have a row, and the same ids
      have a column. */
  lemma {:induction false} LayoutCoversIssues(issues: seq<Issue>, statusColumn: map<Str, int>, id: Str)
    ensures id in RowLayout(issues, statusColumn).row <==> exists i :: 0 <= i < |issues| && issues[i].id == id
    ensures id in RowLayout(issues, statusColumn).column <==> id in RowLayout(issues, statusColumn).row
    decreases |issues|
  {
    if issues != [] {
      var init := issues[..|issues| - 1];
      LayoutCoversIssues(init, statusColumn, id);
      if id != issues[|issues| - 1].id && id in RowLayout(init, statusColumn).row {
        var i :| 0 <= i < |init| && init[i].id == id;
        assert issues[i] == init[i];
      }
    }
  }

  /** The per-column counter ends at the number of issues in that column. */
  lemma {:induction false} LayoutCounts(issues: seq<Issue>, statusColumn: map<Str, int>, c: int)
    ensures Get(RowLayout(issues, statusColumn).counts, c) == CountInColumn(issues, statusColumn, c)
    decreases |issues|
  {
    if issues != [] {
      var init := issues[..|issues| - 1];
      LayoutCounts(init, statusColumn, c);
      LayoutCounts(init, statusColumn, ColumnOf(statusColumn, issues[|issues| - 1]));
    }
  }

  /** With distinct ids, issue i sits in its status's column, one row below the issues before it in
      that column. */
  lemma {:induction false} LayoutRowOfIssue(issues: seq<Issue>, statusColumn: map<Str, int>, i: int)
    requires DistinctIssueIds(issues) && 0 <= i < |issues|
    ensures var l := RowLayout(issues, statusColumn);
            var c := ColumnOf(statusColumn, issues[i]);
            issues[i].id in l.row && issues[i].id in l.column &&
            l.column[issues[i].id] == c &&
            l.row[issues[i].id] == CountInColumn(issues[..i], statusColumn, c) + 1
    decreases |issues|
  {
    var init := issues[..|issues| - 1];
    if i == |issues| - 1 {
      LayoutCounts(init, statusColumn, ColumnOf(statusColumn, issues[i]));
    } else {
      assert init[i] == issues[i];
      assert init[..i] == issues[..i];
      LayoutRowOfIssue(init, statusColumn, i);
    }
  }

  lemma {:induction false} CountInColumnPrefix(issues: seq<Issue>, statusColumn: map<Str, int>, c: int, i: int, j: int)
    requires 0 <= i <= j <= |issues|
    ensures CountInColumn(issues[..i], statusColumn, c) <= CountInColumn(issues[..j], statusColumn, c)
    ensures i < j && ColumnOf(statusColumn, issues[i]) == c ==>
            CountInColumn(issues[..i], statusColumn, c) < CountInColumn(issues[..j], statusColumn, c)
    decreases j - i
  {
    if i < j {
      CountInColumnPrefix(issues, statusColumn, c, i, j - 1);
      assert issues[..j][..j - 1] == issues[..j - 1];
      if i == j - 1 && ColumnOf(statusColumn, issues[i]) == c {
        assert issues[..j][j - 1] == issues[i];
      }
    }
  }

  /** With distinct ids the rows of a column are 1..n in the order the issues appear: every row is
      in that range and a later issue of the same column has a larger row. */
  lemma RowsAreOrderedWithinColumn(issues: seq<Issue>, statusColumn: map<Str, int>, i: int, j: int)
    requires DistinctIssueIds(issues) && 0 <= i < j < |issues|
    requires ColumnOf(statusColumn, issues[i]) == ColumnOf(statusColumn, issues[j])
    ensures var l := RowLayout(issues, statusColumn);
            var c := ColumnOf(statusColumn, issues[i]);
            issues[i].id in l.row && issues[j].id in l.row &&
            1 <= l.row[issues[i].id] < l.row[issues[j].id] <= CountInColumn(issues, statusColumn, c)
  {
    var c := ColumnOf(statusColumn, issues[i]);
    LayoutRowOfIssue(issues, statusColumn, i);
    LayoutRowOfIssue(issues, statusColumn, j);
    CountInColumnPrefix(issues, statusColumn, c, i, j);
    CountInColumnPrefix(issues, statusColumn, c, j, |issues|);
    assert issues[..|issues|] == issues;
  }

  /** With distinct ids every row 1..n of a column is taken by one of its issues. */
  lemma {:induction false} EveryRowIsTaken(issues: seq<Issue>, statusColumn: map<Str, int>, c: int, y: int)
    returns (i: int)
    requires DistinctIssueIds(issues) && 1 <= y <= CountInColumn(issues, statusColumn, c)
    ensures 0 <= i < |issues| && ColumnOf(statusColumn, issues[i]) == c &&
            issues[i].id in RowLayout(issues, statusColumn).row &&
            RowLayout(issues, statusColumn).row[issues[i].id] == y
    decreases |issues|
  {
    var init := issues[..|issues| - 1];
    var last := |issues| - 1;
    if y == CountInColumn(issues, statusColumn, c) && ColumnOf(statusColumn, issues[last]) == c {
      LayoutRowOfIssue(issues, statusColumn, last);
      assert issues[..last] == init;
      i := last;
    } else {
      i := EveryRowIsTaken(init, statusColumn, c, y);
      assert init[i] == issues[i];
      LayoutRowOfIssue(init, statusColumn, i);
      LayoutRowOfIssue(issues, statusColumn, i);
      assert init[..i] == issues[..i];
    }
  }

  // ---------------------------------------------------------------------------------------------
  // Cursor positions of a column (getIssuePositionsInColumn, findNextIssuePosition)

  /** Some issue's recorded column is `c` (columnHasVisibleIssues). */
  predicate HasVisibleIssues(issues: seq<Issue>, column: map<Str, int>, c: int)
  {
    exists i :: 0 <= i < |issues| && Get(column, issues[i].id) == c
  }

  /** The cursor rows (row - 1) of the issues recorded in column `c`, in issue order. */
  function ColumnPositions(issues: seq<Issue>, row: map<Str, int>, column: map<Str, int>, c: int): (ps: seq<int>)
    ensures |ps| <= |issues|
  {
    if issues == [] then []
    else
      var last := issues[|issues| - 1];
      var ps := ColumnPositions(issues[..|issues| - 1], row, column, c);
      if Get(column, last.id) == c then ps + [Get(row, last.id) - 1] else ps
  }

  /** A column has positions exactly when it has a visible issue. */
  lemma {:induction false} ColumnPositionsEmpty(issues: seq<Issue>, row: map<Str, int>, column: map<Str, int>, c: int)
    ensures ColumnPositions(issues, row, column, c) == [] <==> !HasVisibleIssues(issues, column, c)
    decreases |issues|
  {
    if issues != [] {
      var init := issues[..|issues| - 1];
      ColumnPositionsEmpty(init, row, column, c);
      if HasVisibleIssues(init, column, c) {
        var i :| 0 <= i < |init| && Get(column, init[i].id) == c;
        assert issues[i] == init[i];
      }
    }
  }

  /** `ps` lists, at the strictly increasing issue indices `idx`, the row - 1 of each issue recorded
      in column `c`, and every issue left out is recorded elsewhere. */
  ghost predicate PositionsOfColumn(issues: seq<Issue>, row: map<Str, int>, column: map<Str, int>, c: int,
                                    ps: seq<int>, idx: seq<int>)
  {
    |idx| == |ps| &&
    (forall k :: 0 <= k < |idx| ==>
       0 <= idx[k] < |issues| && Get(column, issues[idx[k]].id) == c && ps[k] == Get(row, issues[idx[k]].id) - 1) &&
    (forall k, l :: 0 <= k < l < |idx| ==> idx[k] < idx[l]) &&
    (forall i :: 0 <= i < |issues| && i !in idx ==> Get(column, issues[i].id) != c)
  }

  /** One step of `ColumnPositions` over an issue recorded in another column: the positions of the
      issues before it are still those of the whole list. */
  lemma ColumnPositionsSkip(issues: seq<Issue>, row: map<Str, int>, column: map<Str, int>, c: int,
                            ps: seq<int>, prev: seq<int>)
    requires issues != [] && Get(column, issues[|issues| - 1].id) != c
    requires PositionsOfColumn(issues[..|issues| - 1], row, column, c, ps, prev)
    ensures PositionsOfColumn(issues, row, column, c, ps, prev)
  {
    var n := |issues| - 1;
    var init := issues[..n];
    forall k | 0 <= k < |prev|
      ensures 0 <= prev[k] < |issues| && Get(column, issues[prev[k]].id) == c &&
              ps[k] == Get(row, issues[prev[k]].id) - 1
    {
      assert init[prev[k]] == issues[prev[k]];
    }
    forall i | 0 <= i < |issues| && i !in prev ensures Get(column, issues[i].id) != c {
      if i < n { assert init[i] == issues[i]; }
    }
  }

  /** One step of `ColumnPositions` over an issue recorded in `c`: its row - 1 is appended. */
  lemma ColumnPositionsAppend(issues: seq<Issue>, row: map<Str, int>, column: map<Str, int>, c: int,
                              psInit: seq<int>, prev: seq<int>)
    requires issues != [] && Get(column, issues[|issues| - 1].id) == c
    requires PositionsOfColumn(issues[..|issues| - 1], row, column, c, psInit, prev)
    ensures PositionsOfColumn(issues, row, column, c, psInit + [Get(row, issues[|issues| - 1].id) - 1],
                              prev + [|issues| - 1])
  {
    var n := |issues| - 1;
    var init := issues[..n];
    var ps := psInit + [Get(row, issues[n].id) - 1];
    var idx := prev + [n];
    forall k | 0 <= k < |idx|
      ensures 0 <= idx[k] < |issues| && Get(column, issues[idx[k]].id) == c &&
              ps[k] == Get(row, issues[idx[k]].id) - 1
    {
      if k < |prev| { assert init[prev[k]] == issues[prev[k]]; }
    }
    forall k, l | 0 <= k < l < |idx| ensures idx[k] < idx[l] {
      if l == |prev| { assert idx[l] == n && idx[k] == prev[k]; }
    }
    forall i | 0 <= i < |issues| && i !in idx ensures Get(column, issues[i].id) != c {
      assert init[i] == issues[i];
    }
  }

  /** The positions of column `c` are exactly the rows of the issues recorded in `c`, minus one, in
      issue order: `idx` says which issue each position comes from. */
  lemma {:induction false} ColumnPositionsExactly(issues: seq<Issue>, row: map<Str, int>, column: map<Str, int>, c: int)
    returns (idx: seq<int>)
    ensures PositionsOfColumn(issues, row, column, c, ColumnPositions(issues, row, column, c), idx)
    decreases |issues|
  {
    if issues == [] {
      idx := [];
    } else {
      var init := issues[..|issues| - 1];
      var prev := ColumnPositionsExactly(init, row, column, c);
      if Get(column, issues[|issues| - 1].id) == c {
        ColumnPositionsAppend(issues, row, column, c, ColumnPositions(init, row, column, c), prev);
        idx := prev + [|issues| - 1];
      } else {
        ColumnPositionsSkip(issues, row, column, c, ColumnPositions(init, row, column, c), prev);
        idx := prev;
      }
    }
  }

  predicate Sorted(s: seq<int>)
  {
    forall i, j :: 0 <= i < j < |s| ==> s[i] <= s[j]
  }

  /** `x` put before the first element of `s` that is not smaller. */
  function Insert(x: int, s: seq<int>): seq<int>
  {
    if s == [] || x <= s[0] then [x] + s
    else [s[0]] + Insert(x, s[1..])
  }

  lemma {:induction false} InsertMultiset(x: int, s: seq<int>)
    ensures multiset(Insert(x, s)) == multiset(s) + multiset{x}
    decreases |s|
  {
    if s != [] && x > s[0] {
      InsertMultiset(x, s[1..]);
      assert s == [s[0]] + s[1..];
    }
  }

  lemma {:induction false} InsertKeepsSorted(x: int, s: seq<int>)
    requires Sorted(s)
    ensures Sorted(Insert(x, s))
    decreases |s|
  {
    if s != [] && x > s[0] {
      var t := Insert(x, s[1..]);
      InsertKeepsSorted(x, s[1..]);
      InsertMultiset(x, s[1..]);
      forall k | 0 <= k < |t| ensures s[0] <= t[k] {
        assert t[k] in multiset(t);
        assert t[k] == x || t[k] in multiset(s[1..]);
      }
    }
  }

  /** The ascending order of a list of positions: the reference the in-place sort is proved against. */
  function SortPositions(s: seq<int>): seq<int>
  {
    if s == [] then []
    else Insert(s[0], SortPositions(s[1..]))
  }

  lemma {:induction false} SortPositionsMultiset(s: seq<int>)
    ensures multiset(SortPositions(s)) == multiset(s)
    decreases |s|
  {
    if s != [] {
      var t := SortPositions(s[1..]);
      SortPositionsMultiset(s[1..]);
      InsertMultiset(s[0], t);
      assert SortPositions(s) == Insert(s[0], t);
      assert multiset(s) == multiset(s[1..]) + multiset{s[0]} by {
        assert s == [s[0]] + s[1..];
      }
    }
  }

  lemma {:induction false} SortPositionsIsSorted(s: seq<int>)
    ensures Sorted(SortPositions(s))
    decreases |s|
  {
    if s != [] {
      SortPositionsIsSorted(s[1..]);
      InsertKeepsSorted(s[0], SortPositions(s[1..]));
    }
  }

  lemma SortedHeadIsLeast(a: seq<int>, x: int)
    requires Sorted(a) && x in multiset(a)
    ensures a[0] <= x
  {
    assert x in a;
  }

  lemma TailMultiset(a: seq<int>)
    requires a != []
    ensures multiset(a[1..]) == multiset(a) - multiset{a[0]}
  {
    assert a == [a[0]] + a[1..];
  }

  lemma SortedTail(a: seq<int>)
    requires Sorted(a) && a != []
    ensures Sorted(a[1..])
  {
    forall i, j | 0 <= i < j < |a[1..]| ensures a[1..][i] <= a[1..][j] {
      assert a[1..][i] == a[i + 1] && a[1..][j] == a[j + 1];
    }
  }

  /** A sorted arrangement of a multiset is unique. */
  lemma {:induction false} SortedIsUnique(a: seq<int>, b: seq<int>)
    requires Sorted(a) && Sorted(b) && multiset(a) == multiset(b)
    ensures a == b
    decreases |a|
  {
    if a != [] {
      SortedSameHead(a, b);
      SortedTail(a);
      SortedTail(b);
      SortedIsUnique(a[1..], b[1..]);
      forall i | 0 <= i < |a| ensures a[i] == b[i] {
        if i > 0 {
          assert a[i] == a[1..][i - 1] && b[i] == b[1..][i - 1];
        }
      }
    }
  }

  /** Two sorted arrangements of one multiset start alike, and what follows is again one
      multiset. */
  lemma SortedSameHead(a: seq<int>, b: seq<int>)
    requires Sorted(a) && Sorted(b) && multiset(a) == multiset(b) && a != []
    ensures |a| == |b| && b != [] && a[0] == b[0] && multiset(a[1..]) == multiset(b[1..])
  {
    assert |b| == |multiset(b)| == |a|;
    assert a[0] in multiset(a) && b[0] in multiset(b);
    SortedHeadIsLeast(a, b[0]);
    SortedHeadIsLeast(b, a[0]);
    TailMultiset(a);
    TailMultiset(b);
  }

  /** The first position below row `y` of the screen, in list order. */
  function FirstAfter(ps: seq<int>, y: int): Option<int>
  {
    if ps == [] then None else if ps[0] > y then Some(ps[0]) else FirstAfter(ps[1..], y)
  }

  /** The last position above row `y`, in list order. */
  function LastBefore(ps: seq<int>, y: int): Option<int>
  {
    if ps == [] then None else if ps[|ps| - 1] < y then Some(ps[|ps| - 1]) else LastBefore(ps[..|ps| - 1], y)
  }

  /** findNextIssuePosition over the sorted positions: down takes the first position past the
      cursor and otherwise the last one, up the last one before it and otherwise the first. */
  function NextPosition(ps: seq<int>, cursorY: int, direction: int): int
  {
    if ps == [] then cursorY
    else if direction > 0 then (match FirstAfter(ps, cursorY) case Some(p) => p case None => ps[|ps| - 1])
    else (match LastBefore(ps, cursorY) case Some(p) => p case None => ps[0])
  }

  lemma {:induction false} FirstAfterIsSmallest(ps: seq<int>, y: int)
    requires Sorted(ps)
    ensures match FirstAfter(ps, y)
            case Some(p) => p in ps && p > y && forall q :: q in ps && q > y ==> p <= q
            case None => forall q :: q in ps ==> q <= y
    decreases |ps|
  {
    if ps != [] && ps[0] <= y {
      FirstAfterIsSmallest(ps[1..], y);
      assert forall q :: q in ps ==> q == ps[0] || q in ps[1..];
    }
  }

  lemma {:induction false} LastBeforeIsLargest(ps: seq<int>, y: int)
    requires Sorted(ps)
    ensures match LastBefore(ps, y)
            case Some(p) => p in ps && p < y && forall q :: q in ps && q < y ==> q <= p
            case None => forall q :: q in ps ==> q >= y
    decreases |ps|
  {
    if ps != [] && ps[|ps| - 1] >= y {
      var init := ps[..|ps| - 1];
      LastBeforeIsLargest(init, y);
      assert forall q :: q in ps ==> q == ps[|ps| - 1] || q in init;
    }
  }

  /** Vertical moves over the sorted positions of a column: an empty column keeps the row; down goes
      to the nearest position below the cursor, or stays on the last one; up goes to the nearest
      position above it, or to the first one. */
  lemma NextPositionIsNearest(ps: seq<int>, cursorY: int, direction: int)
    requires Sorted(ps)
    ensures var y := NextPosition(ps, cursorY, direction);
            (ps == [] ==> y == cursorY) &&
            (ps != [] ==> y in ps) &&
            (ps != [] && direction > 0 ==>
               if exists q :: q in ps && q > cursorY
               then y > cursorY && forall q :: q in ps && q > cursorY ==> y <= q
               else y == ps[|ps| - 1]) &&
            (ps != [] && direction <= 0 ==>
               if exists q :: q in ps && q < cursorY
               then y < cursorY && forall q :: q in ps && q < cursorY ==> q <= y
               else y == ps[0])
  {
    FirstAfterIsSmallest(ps, cursorY);
    LastBeforeIsLargest(ps, cursorY);
  }

  // ---------------------------------------------------------------------------------------------
  // Horizontal moves (findNextValidColumn)

  /** findNextValidColumn's loop from `current`, with `steps` iterations left: step one column in
      `direction`, give up outside [0, columnCount), stop at a column with a visible issue. */
  function NextValidColumnFrom(issues: seq<Issue>, column: map<Str, int>, columnCount: nat,
                               current: int, direction: int, steps: nat): int
    decreases steps
  {
    if steps == 0 then -1
    else
      var next := current + direction;
      if next < 0 || next >= columnCount then -1
      else if HasVisibleIssues(issues, column, next) then next
      else NextValidColumnFrom(issues, column, columnCount, next, direction, steps - 1)
  }

  /** findNextValidColumn: at most one step per column. */
  function NextValidColumn(issues: seq<Issue>, column: map<Str, int>, columnCount: nat, start: int, direction: int): int
  {
    NextValidColumnFrom(issues, column, columnCount, start, direction, columnCount)
  }

  /** Column `c` lies strictly beyond `from` in `direction`. */
  predicate Beyond(from: int, c: int, direction: int)
  {
    if direction > 0 then from < c else c < from
  }

  lemma {:induction false} NextValidColumnFromIsNearest(issues: seq<Issue>, column: map<Str, int>, columnCount: nat,
                                                        current: int, direction: int, steps: nat)
    requires direction == 1 || direction == -1
    requires -1 <= current <= columnCount
    requires if direction == 1 then current + steps >= columnCount - 1 else current - steps <= 0
    ensures var r := NextValidColumnFrom(issues, column, columnCount, current, direction, steps);
            if r == -1 then
              forall c :: 0 <= c < columnCount && Beyond(current, c, direction) ==> !HasVisibleIssues(issues, column, c)
            else
              0 <= r < columnCount && HasVisibleIssues(issues, column, r) && Beyond(current, r, direction) &&
              forall c :: Beyond(current, c, direction) && Beyond(c, r, direction) ==> !HasVisibleIssues(issues, column, c)
    decreases steps
  {
    var next := current + direction;
    if steps > 0 && 0 <= next < columnCount && !HasVisibleIssues(issues, column, next) {
      NextValidColumnFromIsNearest(issues, column, columnCount, next, direction, steps - 1);
      var r := NextValidColumnFrom(issues, column, columnCount, current, direction, steps);
      if r != -1 {
        forall c | Beyond(current, c, direction) && Beyond(c, r, direction)
          ensures !HasVisibleIssues(issues, column, c)
        {
          if c != next {
            assert Beyond(next, c, direction);
          }
        }
      }
    }
  }

  /** A horizontal move goes to the nearest column strictly in the direction of the move that has a
      visible issue, inside [0, columnCount); -1 means there is none. */
  lemma NextValidColumnIsNearest(issues: seq<Issue>, column: map<Str, int>, columnCount: nat, start: int, direction: int)
    requires direction == 1 || direction == -1
    requires -1 <= start <= columnCount
    ensures var r := NextValidColumn(issues, column, columnCount, start, direction);
            if r == -1 then
              forall c :: 0 <= c < columnCount && Beyond(start, c, direction) ==> !HasVisibleIssues(issues, column, c)
            else
              0 <= r < columnCount && HasVisibleIssues(issues, column, r) && Beyond(start, r, direction) &&
              forall c :: Beyond(start, c, direction) && Beyond(c, r, direction) ==> !HasVisibleIssues(issues, column, c)
  {
    NextValidColumnFromIsNearest(issues, column, columnCount, start, direction, columnCount);
  }

  // ---------------------------------------------------------------------------------------------
  // Viewport (ensureHighlightInViewport) and column headers (centerString)

  datatype Scroll = Scroll(x: int, y: int)

  function Max(a: int, b: int): int { if a >= b then a else b }

  /** ensureHighlightInViewport as written: column 0 scrolls fully left; a highlighted column whose
      right edge passes the screen scrolls to two columns before it; the vertical test compares
      scrollY + cursorY with scrollY and then scrolls to two rows above the cursor. */
  function ViewportScroll(cursorX: int, cursorY: int, scrollX: int, scrollY: int, columnSize: int, screenX: int): (s: Scroll)
    ensures cursorX == 0 ==> s.x == 0
    ensures cursorX != 0 && scrollX + (cursorX + 1) * columnSize > screenX ==> s.x == Max(0, (cursorX - 2) * columnSize)
    ensures cursorX != 0 && scrollX + (cursorX + 1) * columnSize <= screenX ==> s.x == scrollX
    // the vertical test reduces to "the cursor is below the first row"
    ensures cursorY > 0 ==> s.y == Max(0, cursorY - 2)
    ensures cursorY <= 0 ==> s.y == scrollY
    ensures scrollX >= 0 && scrollY >= 0 ==> s.x >= 0 && s.y >= 0
  {
    var x := if cursorX == 0 then 0
             else if scrollX + cursorX * columnSize + columnSize > screenX then Max(0, (cursorX - 2) * columnSize)
             else scrollX;
    var y := if scrollY + cursorY > scrollY then Max(0, cursorY - 2) else scrollY;
    Scroll(x, y)
  }

  /** Adjusting the viewport a second time changes nothing. */
  lemma ViewportScrollIdempotent(cursorX: int, cursorY: int, scrollX: int, scrollY: int, columnSize: int, screenX: int)
    ensures var s := ViewportScroll(cursorX, cursorY, scrollX, scrollY, columnSize, screenX);
            ViewportScroll(cursorX, cursorY, s.x, s.y, columnSize, screenX) == s
  {
  }

  /** centerString: the text cut to `width` runes, padded with spaces to exactly `width`, the
      left padding being half the slack rounded down. */
  function CenterString(str: Str, width: int): (r: Str)
    requires width >= 0
    ensures |r| == width
    ensures var t := if |str| > width then str[..width] else str;
            var left := (width - |t|) / 2;
            r[left..left + |t|] == t &&
            (forall i :: 0 <= i < left ==> r[i] == ' ') &&
            (forall i :: left + |t| <= i < width ==> r[i] == ' ') &&
            left <= width - left - |t| <= left + 1
  {
    var t := if |str| > width then str[..width] else str;
    var spaces := (width - |t|) / 2;
    Spaces(spaces) + t + Spaces(width - (spaces + |t|))
  }

  // ---------------------------------------------------------------------------------------------
  // Assignee filter (getBoardAssignees, applyAssigneeFilter)

  /** Whether applyAssigneeFilter keeps `issue` for the picked `user`: the "Unassigned" entry keeps
      issues without an assignee name, a user with an account id matches by account id, any other
      user by display name. */
  predicate MatchesAssignee(user: User, issue: Issue)
  {
    if user.displayName == MessageUnassigned then issue.assignee.displayName == ""
    else if user.accountId != "" then issue.assignee.accountId == user.accountId
    else issue.assignee.displayName == user.displayName
  }

  /** The issues of `all` that match `user`, in their order. */
  function FilterByAssignee(all: seq<Issue>, user: User): (r: seq<Issue>)
    ensures |r| <= |all|
  {
    if all == [] then []
    else
      var init := all[..|all| - 1];
      var last := all[|all| - 1];
      FilterByAssignee(init, user) + (if MatchesAssignee(user, last) then [last] else [])
  }

  /** The filter keeps exactly the issues that match. */
  lemma {:induction false} FilterByAssigneeMembers(all: seq<Issue>, user: User)
    ensures forall x :: x in FilterByAssignee(all, user) <==> x in all && MatchesAssignee(user, x)
    decreases |all|
  {
    if all != [] {
      var init := all[..|all| - 1];
      FilterByAssigneeMembers(init, user);
      assert all == init + [all[|all| - 1]];
    }
  }

  /** The filter keeps exactly the matching issues, in order: the result is `all` read at strictly
      increasing indices, and every index left out holds a non-matching issue. */
  lemma {:induction false} FilterPicksMatchingInOrder(all: seq<Issue>, user: User) returns (idx: seq<int>)
    ensures var r := FilterByAssignee(all, user);
            |idx| == |r| &&
            (forall k :: 0 <= k < |idx| ==> 0 <= idx[k] < |all| && r[k] == all[idx[k]]) &&
            (forall k, l :: 0 <= k < l < |idx| ==> idx[k] < idx[l]) &&
            (forall i :: 0 <= i < |all| && i !in idx ==> !MatchesAssignee(user, all[i]))
    decreases |all|
  {
    if all == [] {
      idx := [];
    } else {
      var init := all[..|all| - 1];
      var n := |all| - 1;
      var idx0 := FilterPicksMatchingInOrder(init, user);
      if MatchesAssignee(user, all[n]) {
        idx := idx0 + [n];
      } else {
        idx := idx0;
      }
      forall i | 0 <= i < |all| && i !in idx ensures !MatchesAssignee(user, all[i]) {
        if i < n {
          assert all[i] == init[i];
        }
      }
    }
  }

  /** The picker entry of one assignee name: display name, name and key all set to it. */
  function AssigneeUser(name: Str): User
  {
    User("", name, name, name)
  }

  /** The picker entry standing for issues without an assignee. */
  const UnassignedUser: User := User("", MessageUnassigned, "", "")

  /** The non-empty assignee display names among `issues`. */
  function AssigneeNames(issues: seq<Issue>): set<Str>
  {
    set i | 0 <= i < |issues| && issues[i].assignee.displayName != "" :: issues[i].assignee.displayName
  }

  predicate HasUnassigned(issues: seq<Issue>)
  {
    exists i :: 0 <= i < |issues| && issues[i].assignee.displayName == ""
  }

  // ---------------------------------------------------------------------------------------------
  // Transition choice (moveIssue)

  /** Index of the transition moveIssue uses: the LAST one, in list order, whose target status is
      one of `targetStatuses` (the break only leaves the inner loop), or -1 when none is. */
  function LastMatchingTransition(transitions: seq<Transition>, targetStatuses: seq<Str>): (k: int)
    ensures -1 <= k < |transitions|
  {
    if transitions == [] then -1
    else if transitions[|transitions| - 1].toStatusId in targetStatuses then |transitions| - 1
    else LastMatchingTransition(transitions[..|transitions| - 1], targetStatuses)
  }

  /** The pick is the last transition into one of the target statuses; -1 exactly when none goes
      there. */
  lemma {:induction false} LastMatchingTransitionIsLast(transitions: seq<Transition>, targetStatuses: seq<Str>)
    ensures var k := LastMatchingTransition(transitions, targetStatuses);
            (k == -1 <==> forall i :: 0 <= i < |transitions| ==> transitions[i].toStatusId !in targetStatuses) &&
            (k != -1 ==> transitions[k].toStatusId in targetStatuses &&
                         forall i :: k < i < |transitions| ==> transitions[i].toStatusId !in targetStatuses)
    decreases |transitions|
  {
    if transitions != [] {
      var init := transitions[..|transitions| - 1];
      LastMatchingTransitionIsLast(init, targetStatuses);
      assert forall i :: 0 <= i < |init| ==> init[i] == transitions[i];
    }
  }

  // ---------------------------------------------------------------------------------------------
  // Paged load (Init)

  /** Most issues Init loads, and the page size it asks for. */
  const MaxIssuesNumber: nat := 500
  const IssueFetchBatchSize: nat := 100

  /** The outcome of Init's page loop: the issues gathered and whether a request failed. */
  datatype Loaded = Loaded(issues: seq<Issue>, failed: bool)

  /** Init's loop from page `page` with `acc` gathered so far, for at most `fuel` more requests:
      while fewer than 500 issues are held, ask for the page at offset page * 100; an error stops
      the loop keeping what was gathered; a page that brings the count to the reported total ends
      it. */
  function LoadPages(getPage: int -> Result<Page, Str>, page: nat, acc: seq<Issue>, fuel: nat): (l: Loaded)
    decreases fuel
  {
    if |acc| >= MaxIssuesNumber || fuel == 0 then Loaded(acc, false)
    else match getPage(page * IssueFetchBatchSize)
      case Err(_) => Loaded(acc, true)
      case Ok(p) =>
        var acc' := acc + p.issues;
        if |acc'| >= p.total then Loaded(acc', false)
        else LoadPages(getPage, page + 1, acc', fuel - 1)
  }
}
