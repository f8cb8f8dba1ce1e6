# fjira core, modelled in Dafny

fjira is a terminal client for Jira. This project models five parts of it:

- **The Kanban board view** (`internal/boards/board_view.go`).
  - It maps the board configuration's columns to status ids.
  - It loads the sprint's issues page by page and numbers them into rows per column.
  - It moves a cursor between the columns and rows that hold issues.
  - It keeps a highlighted issue under the cursor and scrolls the viewport.
  - It moves a held issue to the next column through a workflow transition.
  - It filters the board by assignee.
- **The JQL builder** (`internal/issues/jql_builder.go`). It turns the search view's selections into one JQL string.
- **The issue-search view's decisions** (`internal/issues/search_issues.go`):
  - when the cached result list is fetched again;
  - what query text is sent;
  - how excluded statuses are collected and shown.
- **The multi-line text editor** (`internal/ui/text_writer_view.go`):
  - a rune cursor over a text with lines;
  - the desired column that vertical moves remember;
  - the key handler and vertical scrolling.
- **The MCP tool handlers** (`cmd/fjira-cli/commands/mcp.go`):
  - the validation of the `get_issue` and `search_issues` arguments;
  - the Markdown the handlers produce.

## How the model is laid out

- **Value code becomes functions.** Code that only computes a value is a function, such as the JQL builder, the scroll arithmetic and the Markdown formatters. The properties of these functions are lemmas.
- **Views become classes.** Each view whose methods update its fields is a `class` with those fields: `Board.BoardView`, `TextWriter.TextWriterView` and `SearchIssues.SearchIssuesView`. Go's package-level search selections are the class `SearchIssues.SearchSession`.
- **Each method is proved against a function.** Every method's `ensures` ties the new state to a ghost function of the old state, for example `State() == RefreshHighlight(old(State()))`. The properties of those functions are proved as lemmas. The board's lemmas are in `board_props.dfy`.
- **Go's loops stay loops.** They are kept as `while` loops with invariants. A loop that works on values alone is a module-level method, and the class method calls it. Examples are the row numbering, the position sort, the assignee filter and the paged load.
- **The sort stays in place.** The position sort of `getIssuePositionsInColumn` is an exchange sort on an `array<int>`.
- **Missing map keys read as zero.** A Go read of a `map[K]int` at a missing key gives 0. The model writes that out with `Jira.Get`.
- **Outside calls are parameters.** Calls to the Jira API are function parameters, for example `getPage`, `findTransitions`, `doTransition`, `search` and `getIssue`. Each returns a `Result` or an `Option`.
- **Go strings are rune sequences here.** A Go `string` is a sequence of bytes. The model uses `seq<char>`, a sequence of runes, which agrees with Go for ASCII text. The operations whose byte counts differ from rune counts are listed under "Left out".

## Model

| member | source | states |
|---|---|---|
| Text.TrimSpace | internal/issues/jql_builder.go:17 | The result is the slice of the input left once the leading and trailing white space is removed: everything cut off is white space, and the result neither starts nor ends with white space. A text made only of white space trims to empty. |
| Text.TrimSpaceKeeps | internal/issues/jql_builder.go:17 | A text that neither starts nor ends with white space is unchanged by the trim. |
| Text.AllSpaceTrimsToEmpty | internal/issues/jql_builder.go:17 | Trimming white space from the left of an all-white-space text leaves nothing. |
| Text.TrimLeftCutset | internal/issues/jql_builder.go:41 | `strings.TrimLeft` leaves a suffix of the input. Everything it dropped is in the cutset. The rest does not start with a cutset character. |
| Text.Spaces | internal/boards/board_view.go:640 | `strings.Repeat(" ", n)` is exactly n spaces. |
| Text.NatToString | cmd/fjira-cli/commands/mcp.go:246 | `%d` of a natural number is a non-empty run of digits. |
| Text.ParseNatToString | cmd/fjira-cli/commands/mcp.go:246 | Reading back the decimal digits that `%d` wrote gives the number again. |
| Text.IntToString | cmd/fjira-cli/commands/mcp.go:246 | `%d` of a negative number is a minus sign followed by the digits of its magnitude. |
| Jira.Get | internal/boards/board_view.go:510 | Reading a Go `map[K]int` gives the stored value, or 0 when the key is missing. |
| IssuePatterns.DashIndex | internal/issues/search_issues.go:44 | The result is the position of the first dash, or the length when there is none. |
| IssuePatterns.DashIndexAt | internal/issues/search_issues.go:44 | Any position with a dash and no dash before it is the first dash. |
| IssuePatterns.MatchesIssueKeyIsShape | internal/issues/search_issues.go:44 | The matcher of `^[A-Za-z0-9]{2,10}-[0-9]+$` accepts exactly the key-shaped strings: 2 to 10 alphanumerics, one dash, then at least one digit. |
| IssuePatterns.NumericIsNotKey | internal/issues/search_issues.go:44-45 | A string of digits only, as matched by `^[0-9]+$`, is never an issue key. |
| IssuePatterns.ProjectPrefixMakesKey | internal/issues/search_issues.go:400-404 | A project key of 2 to 10 alphanumerics, a dash and a number form a string the issue-key pattern matches. |
| JqlBuilder.PrefixedAppend | internal/issues/jql_builder.go:18-37 | Appending " AND "-prefixed conditions one after another distributes over concatenation. |
| JqlBuilder.PrefixedIsJoin | internal/issues/jql_builder.go:18-37 | A non-empty list of conditions, each prefixed with " AND ", is " AND " followed by the conditions joined with " AND ". |
| JqlBuilder.PrefixedSingle | internal/issues/jql_builder.go:18-37 | One prefixed condition is " AND " followed by that condition. |
| JqlBuilder.PrefixedConcat | internal/issues/jql_builder.go:18-37 | The five optional condition groups, prefixed together, are the concatenation of each group prefixed on its own. |
| JqlBuilder.PrefixedSummary | internal/issues/jql_builder.go:18-20 | The summary clause is present exactly when the trimmed query is non-empty, and is then " AND summary~\"<query>*\"". |
| JqlBuilder.PrefixedStatus | internal/issues/jql_builder.go:21-23 | The status clause is present for a chosen status other than "All", and names its id. |
| JqlBuilder.PrefixedAssignee | internal/issues/jql_builder.go:24-30 | The assignee clause is present for a chosen user other than "All". It uses the account id, or the user name when the account id is empty. |
| JqlBuilder.PrefixedLabel | internal/issues/jql_builder.go:32-34 | The label clause is present for a non-empty label other than "All". |
| JqlBuilder.PrefixedExclude | internal/issues/jql_builder.go:35-37 | The exclusion clause `status!=<id>` is present for an exclude status other than "All". |
| JqlBuilder.OtherClausesArePrefixed | internal/issues/jql_builder.go:18-37 | The text appended after the project part is exactly the optional conditions, each prefixed with " AND ", in builder order. |
| JqlBuilder.TrimCutsetPrefix | internal/issues/jql_builder.go:41 | `TrimLeft` removes a prefix made of cutset characters and stops at the first character outside the cutset. |
| JqlBuilder.TrimSeparator | internal/issues/jql_builder.go:41 | `TrimLeft(" AND " + t, " AND")` is `t` when `t` starts outside the cutset. |
| JqlBuilder.RawJqlIsPrefixed | internal/issues/jql_builder.go:12-40 | The string built before the trim is the project clause, then the prefixed conditions, then the issue-key alternative. |
| JqlBuilder.OtherConditionsStartOutsideCutset | internal/issues/jql_builder.go:19-36 | Every condition starts with a lower-case letter, so the trim of " AND" never eats into a condition. |
| JqlBuilder.TrimAfterHead | internal/issues/jql_builder.go:41 | When the project condition leads, the trim removes nothing. |
| JqlBuilder.TrimWithoutHead | internal/issues/jql_builder.go:41 | Without a project condition, the trim removes exactly the first " AND ". |
| JqlBuilder.TrimAssembled | internal/issues/jql_builder.go:41 | Over the assembled parts, the trimmed text is all the conditions joined with " AND ", followed by the key alternative. |
| JqlBuilder.ProjectParts | internal/issues/jql_builder.go:13-15 | The project condition is absent for no project or the "All" project. Otherwise it is `project=<id>`, which starts outside the cutset. |
| JqlBuilder.KeyNeedsQuery | internal/issues/jql_builder.go:38-40 | The issue-key alternative appears only when the summary condition does, so it never follows an empty condition list. |
| JqlBuilder.TrimmedRawJql | internal/issues/jql_builder.go:41 | After the trim, the clause text is the conditions joined by " AND ", then the key alternative. |
| JqlBuilder.BuildIsJoinedConditions | internal/issues/jql_builder.go:11-42 | The JQL is the conditions joined by " AND ". A key-shaped trimmed query adds ` OR issuekey="<query>"`. The JQL ends with " ORDER BY status". |
| JqlBuilder.BuildForTrimmedKey | internal/issues/jql_builder.go:38-41 | For a trimmed key-shaped query, the JQL ends with the issue-key alternative and the ordering. |
| SearchIssues.SearchSession.constructor | internal/issues/search_issues.go:46-50 | The package-level selections start out unset: no status, user, label or excluded statuses. |
| SearchIssues.IsExcluded | internal/issues/search_issues.go:297-303 | The duplicate scan finds a status exactly when some excluded status has the same id. |
| SearchIssues.Negated | internal/issues/search_issues.go:146 | There is one negated name per name. |
| SearchIssues.StatusNames | internal/issues/search_issues.go:142-145 | The names slice holds, at each index, the name of the excluded status at that index. |
| SearchIssues.NegatedJoin | internal/issues/search_issues.go:146 | "-" followed by the names joined with ", -" equals the names, each negated, joined with ", ". |
| SearchIssues.ExcludedStatusText | internal/issues/search_issues.go:140-146 | The loop and the join give the top-bar label of the excluded statuses, which always starts with "-". |
| SearchIssues.NumericFollowUpKey | internal/issues/search_issues.go:400-404 | The project-prefixed number is key-shaped and left unchanged by trimming. |
| SearchIssues.NumericFollowUpSearchesByKey | internal/issues/search_issues.go:400-405 | After a numeric query, a numeric query in a project with a well-formed key searches the conditions OR the issue key `<KEY>-<n>`. |
| SearchIssues.NumericFollowUpBuildsFor | internal/issues/search_issues.go:400-405 | After a numeric query, without a custom JQL, the builder receives `<project key>-<trimmed query>`. |
| SearchIssues.SearchIssuesView.constructor | internal/issues/search_issues.go:60-77 | A new view holds its project and custom JQL. Its query, cached issues and dirty flag are empty. |
| SearchIssues.SearchIssuesView.SearchForIssues | internal/issues/search_issues.go:400-415 | The JQL sent is the custom JQL when set, else the builder's. A failed search yields no issues. |
| SearchIssues.SearchIssuesView.FindIssues | internal/issues/search_issues.go:223-241 | The query is trimmed. The cache is replaced by a fresh search exactly when the refetch rule holds, and that clears `dirty`. The current query becomes the trimmed query. |
| SearchIssues.SearchIssuesView.RunExcludeStatus | internal/issues/search_issues.go:283-313 | A picked status other than "All", whose id is not yet excluded, is appended and marks the view dirty. Otherwise nothing changes. Distinct ids are preserved, and the other selections are untouched. |
| SearchIssues.SearchIssuesView.RunClearExcludedStatuses | internal/issues/search_issues.go:315-320 | The excluded statuses are emptied and the view is marked dirty. Nothing else changes. |
| BoardLayout.KeptColumns | internal/boards/board_view.go:76-93 | Only configured columns with at least one status are kept, and each kept column comes from the configuration. |
| BoardLayout.KeptColumnsSkip | internal/boards/board_view.go:76-93 | A column without statuses is skipped: the kept columns before it still pick exactly the columns with statuses, in order. |
| BoardLayout.KeptColumnsAppend | internal/boards/board_view.go:76-93 | A column with statuses is kept after the ones before it, at its own position. |
| BoardLayout.KeptColumnsInOrder | internal/boards/board_view.go:76-93 | The kept columns are the configuration read at strictly increasing positions, and every column left out has no status. |
| BoardLayout.KeptColumnsComplete | internal/boards/board_view.go:76-93 | Every configured column with a status is kept. |
| BoardLayout.AssignColumn | internal/boards/board_view.go:84-88 | After the loop, every status id of the column maps to the column, and every other id keeps its old column. |
| BoardLayout.ColumnsAreKeptInOrder | internal/boards/board_view.go:76-93 | The column names and the column-to-statuses table list exactly the kept columns, numbered from 0 in configuration order. |
| BoardLayout.StatusMappedIffListed | internal/boards/board_view.go:76-93 | A status id is in the status-to-column table exactly when some kept column lists it. |
| BoardLayout.StatusMapsToLastColumn | internal/boards/board_view.go:76-93 | A status listed by several columns maps to the last of them. |
| BoardLayout.StatusMapsToItsColumn | internal/boards/board_view.go:76-93 | When no status is listed twice, every status of kept column j maps to j. |
| BoardLayout.MapColumns | internal/boards/board_view.go:76-93 | The loop of NewBoardView builds exactly the column mapping. |
| BoardLayout.AssignStatuses | internal/boards/board_view.go:84-89 | One kept column's step maps its statuses to it and records its status list. |
| BoardLayout.CountInColumn | internal/boards/board_view.go:535-541 | A column never counts more issues than there are. |
| BoardLayout.LayoutCoversIssues | internal/boards/board_view.go:529-542 | After refreshIssuesRows, the row and column tables have an entry for exactly the ids of the listed issues. |
| BoardLayout.LayoutCounts | internal/boards/board_view.go:534-541 | Each column's running counter ends at the number of issues in that column. |
| BoardLayout.LayoutRowOfIssue | internal/boards/board_view.go:535-541 | With distinct ids, an issue's column is its status's column. Its row is 1 plus the number of earlier issues in that column. |
| BoardLayout.CountInColumnPrefix | internal/boards/board_view.go:535-541 | Counts over longer prefixes never decrease. They strictly increase past an issue of the column. |
| BoardLayout.RowsAreOrderedWithinColumn | internal/boards/board_view.go:535-541 | Within a column, rows follow list order and lie in 1 to the column's count. |
| BoardLayout.EveryRowIsTaken | internal/boards/board_view.go:535-541 | With distinct ids, every row from 1 to the column's count holds an issue of that column, so the rows have no gaps. |
| BoardLayout.ColumnPositions | internal/boards/board_view.go:316-321 | There are no more positions than issues. |
| BoardLayout.ColumnPositionsSkip | internal/boards/board_view.go:316-321 | An issue recorded in another column adds no position. |
| BoardLayout.ColumnPositionsAppend | internal/boards/board_view.go:316-321 | An issue recorded in the column adds its row minus one after the positions before it. |
| BoardLayout.ColumnPositionsExactly | internal/boards/board_view.go:316-321 | The positions are, in issue order, the row minus one of each issue recorded in the column, and every issue left out is recorded in another column. |
| BoardLayout.ColumnPositionsEmpty | internal/boards/board_view.go:304-321 | A column has cursor positions exactly when `columnHasVisibleIssues` holds for it. |
| BoardLayout.InsertMultiset | internal/boards/board_view.go:324-330 | Inserting a position keeps all the others. |
| BoardLayout.InsertKeepsSorted | internal/boards/board_view.go:324-330 | Inserting into a sorted list keeps it sorted. |
| BoardLayout.SortPositionsMultiset | internal/boards/board_view.go:324-330 | The reference sort is a permutation of its input. |
| BoardLayout.SortPositionsIsSorted | internal/boards/board_view.go:324-330 | The reference sort's output is ascending. |
| BoardLayout.SortedHeadIsLeast | internal/boards/board_view.go:569-571 | The first of sorted positions is the least of them. |
| BoardLayout.SortedIsUnique | internal/boards/board_view.go:324-330 | Two sorted permutations of the same positions are equal, so the in-place sort agrees with the reference sort. |
| BoardLayout.SortedSameHead | internal/boards/board_view.go:324-330 | Two sorted permutations share their first element, and their tails are permutations of each other. |
| BoardLayout.FirstAfterIsSmallest | internal/boards/board_view.go:341-347 | The downward scan over sorted positions finds the least position below the cursor, or reports there is none. |
| BoardLayout.LastBeforeIsLargest | internal/boards/board_view.go:348-354 | The upward scan finds the greatest position above the cursor, or reports there is none. |
| BoardLayout.NextPositionIsNearest | internal/boards/board_view.go:336-357 | With no positions the cursor stays. Otherwise it moves to the nearest position in the direction. When there is none that way, it goes to the last position (down) or the first position (up). |
| BoardLayout.NextValidColumnFromIsNearest | internal/boards/board_view.go:360-372 | The column search step returns the nearest column with issues in the direction, or -1 when there is none. |
| BoardLayout.NextValidColumnIsNearest | internal/boards/board_view.go:360-372 | `findNextValidColumn` returns the nearest column with visible issues beyond the start in the direction. It returns -1 exactly when no such column exists. |
| BoardLayout.ViewportScroll | internal/boards/board_view.go:621-633 | Column 0 scrolls fully left. A highlighted column past the right edge scrolls to two columns before it. The vertical test, as written, fires whenever the cursor is below the first row, and then scrolls to two rows above it. Non-negative scrolls stay non-negative. |
| BoardLayout.ViewportScrollIdempotent | internal/boards/board_view.go:621-633 | Adjusting the viewport twice is the same as adjusting it once. |
| BoardLayout.CenterString | internal/boards/board_view.go:635-641 | The result has exactly the width. The text, cut to the width, sits at (width - length) / 2 with spaces around it. The right padding equals the left or exceeds it by one. |
| BoardLayout.FilterByAssignee | internal/boards/board_view.go:704-722 | The filter never lengthens the list. |
| BoardLayout.FilterByAssigneeMembers | internal/boards/board_view.go:704-722 | The filter keeps exactly the issues that match the user. For "Unassigned", those are the issues without an assignee name. |
| BoardLayout.FilterPicksMatchingInOrder | internal/boards/board_view.go:704-722 | The filtered list is a subsequence of the issues at strictly increasing indices. Every issue left out does not match. |
| BoardLayout.LastMatchingTransition | internal/boards/board_view.go:591-599 | The result is an index into the transitions, or -1. |
| BoardLayout.LastMatchingTransitionIsLast | internal/boards/board_view.go:591-599 | The scan picks the LAST transition into one of the target column's statuses. It yields -1 exactly when there is none. |
| Board.HighlightIndexFrom | internal/boards/board_view.go:509-519 | The scan yields -1 or an index of the issue list at or after its start. |
| Board.MinColumn | internal/boards/board_view.go:558-564 | The leftmost column is at most `len(columnsX)` and at most every recorded column, and is one of them. |
| Board.MinColumnIsUnique | internal/boards/board_view.go:558-564 | Any value with the least-element properties is the leftmost column. |
| Board.ColumnOffsetsAt | internal/boards/board_view.go:184-190 | Every column i gets the offset i * (columnSize + 1), and nothing else gets one. |
| Board.PlaceColumns | internal/boards/board_view.go:184-190 | The resize loop writes the offsets of all columns over the old table. |
| Board.BoardView.constructor | internal/boards/board_view.go:71-132 | A new board holds the column mapping of its configuration and otherwise empty tables. The cursor and scrolls start at 0, and its state is consistent. |
| Board.BoardView.Resize | internal/boards/board_view.go:178-191 | The screen size is recorded and every column's x offset is rewritten. Nothing else changes. |
| Board.BoardView.RefreshIssuesRows | internal/boards/board_view.go:529-542 | Both tables are rebuilt from empty by numbering the listed issues per column. |
| Board.BoardView.ColumnHasVisibleIssues | internal/boards/board_view.go:304-311 | The result is true exactly when some listed issue is recorded in the column. |
| Board.BoardView.GetIssuePositionsInColumn | internal/boards/board_view.go:314-333 | The result is the column's positions (row - 1) in ascending order. |
| Board.BoardView.FindNextIssuePosition | internal/boards/board_view.go:336-357 | The result is the nearest position in the direction within the cursor's column. When there is none that way, it is the last position (down) or the first position (up). |
| Board.BoardView.FindNextValidColumn | internal/boards/board_view.go:360-372 | The result is the nearest column with visible issues in the direction, or -1. |
| Board.BoardView.RefreshHighlightedIssue | internal/boards/board_view.go:508-522 | The result is true exactly when some issue under the cursor has a key other than the highlight's. The state becomes that of the refresh. |
| Board.BoardView.PointCursorTo | internal/boards/board_view.go:524-527 | The cursor moves to the issue's column and to its row minus one. |
| Board.BoardView.SetInitialCursorX | internal/boards/board_view.go:553-575 | With issues recorded, the cursor goes to the leftmost recorded column and its first position. With none recorded, nothing changes. |
| Board.BoardView.LeftmostColumn | internal/boards/board_view.go:558-564 | The scan returns the least of `len(columnsX)` and all recorded columns. |
| Board.BoardView.EnsureHighlightInViewport | internal/boards/board_view.go:621-633 | The scroll offsets become those of the viewport adjustment. Nothing else changes. |
| Board.BoardView.MoveCursorRight | internal/boards/board_view.go:382-410 | The state becomes the horizontal move one column to the right. |
| Board.BoardView.MoveCursorLeft | internal/boards/board_view.go:412-440 | The state becomes the horizontal move one column to the left. |
| Board.BoardView.MoveCursorAcross | internal/boards/board_view.go:382-440 | The body shared by both directions gives the horizontal move. |
| Board.BoardView.MoveCursorInto | internal/boards/board_view.go:390-397 | The cursor enters column c at its topmost position. |
| Board.BoardView.AfterCursorMove | internal/boards/board_view.go:399-409 | After entering the new column, a held issue is moved and the highlight is refreshed. |
| Board.BoardView.MoveIssue | internal/boards/board_view.go:577-619 | The state becomes the transition of the highlighted issue: unchanged on any failure, otherwise the transition taken. |
| Board.BoardView.TakeTransitionStep | internal/boards/board_view.go:611-618 | On success, the issue takes the target status, the hold ends, the rows are rebuilt, the cursor points at the issue and the highlight is refreshed. |
| Board.BoardView.HandleKeyEvent | internal/boards/board_view.go:259-301 | While loading, nothing changes. Enter opens the highlighted issue when none is held. Right and left move across columns. Up and down move within a column that has issues. |
| Board.BoardView.MoveCursorVertically | internal/boards/board_view.go:281-300 | A column with issues moves the cursor to the next position and refreshes the highlight when it changed. Otherwise nothing happens. |
| Board.BoardView.GetBoardAssignees | internal/boards/board_view.go:674-697 | The result has one entry per distinct assignee name, followed by "Unassigned" when some issue has no assignee. |
| Board.BoardView.ApplyAssigneeFilter | internal/boards/board_view.go:699-731 | The list is replaced by the matching issues and the filter is recorded. The rows, cursor and viewport are reset. |
| Board.BoardView.ClearAssigneeFilter | internal/boards/board_view.go:733-746 | The list is replaced by all issues and the filter is cleared. The rows, cursor and viewport are reset. |
| Board.BoardView.ResetCursorAndView | internal/boards/board_view.go:723-730 | The tail shared by filtering and clearing rebuilds the rows, resets the scroll and cursor, and places the initial cursor. |
| Board.BoardView.Init | internal/boards/board_view.go:193-228 | The state becomes the paged load followed by showing what was loaded. |
| Board.BoardView.ShowIssues | internal/boards/board_view.go:215-225 | After a failed load, only the partial issues are kept. Otherwise the filter is reapplied, or the full list is shown with rows, cursor and highlight. |
| Board.NumberRows | internal/boards/board_view.go:534-541 | The numbering loop builds exactly the row and column tables of the layout. |
| Board.SortedPositions | internal/boards/board_view.go:314-333 | The column's positions are collected and sorted in place. The result is ascending, a permutation of the positions, and equal to the reference sort. |
| Board.KeepAssignedTo | internal/boards/board_view.go:704-722 | The filter loop keeps exactly the filtered issues, in order. |
| Board.FetchAllIssues | internal/boards/board_view.go:201-213 | The page loop gathers exactly what the paged-load function describes. |
| Board.FindTargetTransition | internal/boards/board_view.go:591-599 | The nested scan returns the last matching transition. |
| Board.CollectAssignees | internal/boards/board_view.go:675-685 | The first loop yields the set of assignee names and whether some issue has none. |
| Board.UsersNamed | internal/boards/board_view.go:686-691 | There is one user entry per name, with exactly the given names. |
| Board.DisplayNamesAppend | internal/boards/board_view.go:686-691 | Adding a user adds its display name. |
| Board.AssigneeNamesAppend | internal/boards/board_view.go:675-685 | One more issue adds its assignee name, or records that an issue is unassigned. |
| Board.SortInPlace | internal/boards/board_view.go:324-330 | The exchange sort leaves the array ascending and a permutation of its old contents. |
| Board.ExchangePass | internal/boards/board_view.go:324-330 | After outer step i, a[..i+1] is sorted and below everything after it. The multiset is kept. |
| Board.ExchangeStep | internal/boards/board_view.go:325-329 | One comparison and swap keeps a[i] the least seen so far and keeps the multiset. |
| Board.SwapKeepsSplit | internal/boards/board_view.go:326-328 | Swapping a smaller a[j] into slot i keeps the sorted prefix, the split and the multiset. |
| Board.NextPositionIn | internal/boards/board_view.go:336-357 | The two scans of findNextIssuePosition compute the nearest position in the direction. When there is none that way, they give the last position (down) or the first position (up). |
| BoardProperties.HighlightIndexIsFirst | internal/boards/board_view.go:509-519 | The scan stops at the first issue under the cursor whose key differs from the highlight's. It yields -1 exactly when there is none. |
| BoardProperties.RefreshHighlightPicksFirst | internal/boards/board_view.go:508-522 | With no new issue under the cursor, nothing changes. Otherwise the first such issue becomes the highlight, the viewport follows, and nothing else changes. |
| BoardProperties.RefreshHighlightMovesOnlyHighlight | internal/boards/board_view.go:508-522 | The refresh touches only the highlight and the scroll offsets, and nothing on an empty board. |
| BoardProperties.OneIssuePerCell | internal/boards/board_view.go:529-542 | With distinct ids, no two issues share a column and a row. |
| BoardProperties.RefreshHighlightIdempotent | internal/boards/board_view.go:508-522 | A second refresh right after the first changes nothing. |
| BoardProperties.RefreshHighlightKeepsConsistent | internal/boards/board_view.go:508-522 | The refresh keeps the tables in step with the issue list. |
| BoardProperties.TakeTransitionKeepsConsistent | internal/boards/board_view.go:611-618 | A successful transition keeps the tables consistent. |
| BoardProperties.ResetViewKeepsConsistent | internal/boards/board_view.go:723-730 | The filter's reset tail leaves the tables consistent. |
| BoardProperties.MoveHorizontallyKeepsConsistent | internal/boards/board_view.go:382-440 | Moving across columns, with or without a held issue, keeps the tables consistent. |
| BoardProperties.TransitionIssueKeepsConsistent | internal/boards/board_view.go:577-619 | moveIssue keeps the tables consistent whether it succeeds or fails. |
| BoardProperties.MoveVerticallyKeepsConsistent | internal/boards/board_view.go:281-300 | Moving within a column keeps the tables consistent. |
| BoardProperties.HandleKeyKeepsConsistent | internal/boards/board_view.go:259-301 | Every key keeps the board's tables consistent. |
| BoardProperties.FilterKeepsConsistent | internal/boards/board_view.go:699-746 | Filtering and clearing the filter both leave consistent tables. |
| BoardProperties.TopPositionIsLeast | internal/boards/board_view.go:390-397 | Entering a column puts the cursor at its least position, or at 0 when the column is empty. |
| BoardProperties.MoveHorizontallyWithoutTarget | internal/boards/board_view.go:382-389 | With no column that has issues in the direction, the move changes nothing. |
| BoardProperties.MoveHorizontallyIsNearest | internal/boards/board_view.go:382-410 | Without a held issue, the cursor lands in the nearest column with issues, at its topmost position. Only the highlight and scroll differ from entering that column. When no issue under the new cursor differs from the highlight, the board is the entered column unchanged. Otherwise the first such issue becomes the highlight, the view scrolls horizontally to the cursor and vertically back to the top. |
| BoardProperties.FollowCursorHighlightsFirst | internal/boards/board_view.go:399-409 | With no issue held, the board is unchanged when no issue under the cursor differs from the highlight. Otherwise the first such issue is highlighted, the view scrolls horizontally to the cursor and vertically back to the top, and nothing else changes. |
| BoardProperties.MoveHorizontallyHighlightsFirst | internal/boards/board_view.go:382-410 | The same outcome for a whole horizontal move without a held issue, measured against the board after entering the next valid column. |
| BoardProperties.HeldMoveFailureKeepsCursorMoved | internal/boards/board_view.go:390-401 | When moving a held issue fails, the cursor stays in the new column and the issue stays held with its old status. |
| BoardProperties.NextPositionInColumn | internal/boards/board_view.go:314-357 | Over the column's sorted positions, up and down reach the nearest position in the direction. When there is none that way, they go to the last position (down) or the first position (up). |
| BoardProperties.SameElements | internal/boards/board_view.go:324-330 | Positions with the same multiset have the same elements. |
| BoardProperties.SortedEnds | internal/boards/board_view.go:324-330 | Sorted positions lie between the first and the last. |
| BoardProperties.MoveVerticallyIsNearest | internal/boards/board_view.go:281-300 | Up and down keep the column and the issues. The cursor moves to the nearest position in the direction. When there is none that way, it goes to the last position (down) or the first position (up). In an empty column it stays put. |
| BoardProperties.TransitionIssueFailureChangesNothing | internal/boards/board_view.go:585-610 | When the transitions cannot be fetched, none matches, or the transition call fails, the board is unchanged. |
| BoardProperties.TransitionIssueSucceeds | internal/boards/board_view.go:577-619 | The last matching transition is taken. The highlighted issue gets its status in place, the hold ends and `allIssues` is untouched. The cursor lands on the issue's new cell, the ids stay distinct and the tables stay consistent. |
| BoardProperties.TakeTransitionOfHighlight | internal/boards/board_view.go:611-618 | The success path, for any transition, updates the highlighted issue in place and points the cursor at its new cell. |
| BoardProperties.ReplaceKeepsDistinct | internal/boards/board_view.go:613-614 | Changing an issue's status keeps the ids distinct. |
| BoardProperties.NothingNewUnderCursor | internal/boards/board_view.go:508-522 | When the cursor is on the highlight's cell, no other issue is under it. |
| BoardProperties.ResetViewFrame | internal/boards/board_view.go:723-730 | The reset rebuilds the rows from the new list and leaves the lists alone. With no issues, the cursor and scrolls are 0. |
| BoardProperties.ResetViewCursor | internal/boards/board_view.go:723-730 | The reset cursor depends only on the issues, the mapping and the column offsets. |
| BoardProperties.FilterBoardShowsMatches | internal/boards/board_view.go:699-731 | After filtering, the list shows exactly the matching issues of `allIssues` and the filter is recorded. |
| BoardProperties.ClearUndoesFilter | internal/boards/board_view.go:733-746 | Clearing after filtering gives the same list, rows and cursor as clearing alone. |
| BoardProperties.LoadPagesKeepsGathered | internal/boards/board_view.go:201-213 | The page loop only appends. It fails only below the issue limit. With no requests left, or once the limit is reached, it stops. |
| BoardProperties.LoadBoardFailure | internal/boards/board_view.go:202-207 | On a request error, Init keeps the pages gathered so far in `allIssues` and changes nothing else. |
| BoardProperties.LoadBoardKeepsConsistent | internal/boards/board_view.go:193-228 | Init keeps the tables consistent whether or not a request fails. |
| BoardProperties.ShowLoadedKeepsConsistent | internal/boards/board_view.go:215-225 | Showing the loaded issues keeps the tables consistent. |
| BoardProperties.LoadBoardUnfiltered | internal/boards/board_view.go:218-224 | Without a filter, the board shows every loaded issue. |
| BoardProperties.LoadBoardFiltered | internal/boards/board_view.go:216-217 | With a filter, the board shows exactly the loaded issues that match it. |
| TextWriter.SplitLines | internal/ui/text_writer_view.go:81-83 | Splitting on newlines gives at least one line. |
| TextWriter.ScanLineCol | internal/ui/text_writer_view.go:86-104 | The scan never goes back a line, or back a column on the same line. |
| TextWriter.LineStart | internal/ui/text_writer_view.go:457-466 | The start of a line is within the text. |
| TextWriter.ColumnOffset | internal/ui/text_writer_view.go:469-476 | The column walk stays within the line. |
| TextWriter.OffsetOf | internal/ui/text_writer_view.go:452-487 | setCursorToLineCol always yields an offset within the text. |
| TextWriter.ScanShift | internal/ui/text_writer_view.go:86-104 | Scanning from a later line and column shifts the result by the start. |
| TextWriter.OffsetOfLineCol | internal/ui/text_writer_view.go:86-104 | Going from an offset to its line and column and back gives the offset again. |
| TextWriter.LineColOfOffset | internal/ui/text_writer_view.go:452-487 | Going from an existing line and column to an offset and back gives them again. |
| TextWriter.LineColInRange | internal/ui/text_writer_view.go:86-104 | The line of any offset is an existing line, and its column is within that line. |
| TextWriter.ScanStep | internal/ui/text_writer_view.go:91-101 | One more rune bumps the line and resets the column on a newline. Any other rune bumps the column. |
| TextWriter.Newlines | internal/ui/text_writer_view.go:95-97 | The newline count is at most the length. |
| TextWriter.RunesAfterLastNewline | internal/ui/text_writer_view.go:98-100 | The column count is at most the length. |
| TextWriter.LineColCounts | internal/ui/text_writer_view.go:86-104 | The cursor's line is the number of newlines before it. Its column is the number of runes since the last of them. |
| TextWriter.SplitLinesJoin | internal/ui/text_writer_view.go:81-83 | Joining the lines with newlines gives the text back. |
| TextWriter.SplitLinesHaveNoNewline | internal/ui/text_writer_view.go:81-83 | No line contains a newline. |
| TextWriter.ScrolledLine | internal/ui/text_writer_view.go:190-233 | A line that fits is shown whole. A longer one is shown as a window starting at the clamped start, exactly as wide as the area unless it reaches the end of the line first. The truncation flags say whether text is hidden at each end. |
| TextWriter.ScrolledLineShowsCursor | internal/ui/text_writer_view.go:196-221 | On a line wider than the area, the window contains the cursor. The cursor keeps the margin from the right edge, and from the left edge unless the window starts at 0. |
| TextWriter.HandleKeyKeepsCursorInText | internal/ui/text_writer_view.go:269-348 | After any key, the cursor is still within the text and the screen size is unchanged. |
| TextWriter.TypeThenBackspace | internal/ui/text_writer_view.go:305-338 | Typing a rune and then pressing Backspace restores the text and the cursor. |
| TextWriter.TypeLeftThenDelete | internal/ui/text_writer_view.go:275-338 | Typing a rune, stepping left and pressing Delete restores the text and the cursor. |
| TextWriter.InsertAtCursorPlaces | internal/ui/text_writer_view.go:351-357 | The inserted text sits at the old cursor, with the text before and after it kept. The cursor moves past it. |
| TextWriter.BackspaceRemovesRuneBefore | internal/ui/text_writer_view.go:309-320 | At offset 0, Backspace does nothing. Otherwise it removes the rune before the cursor, moves the cursor back one and remembers the column. |
| TextWriter.DeleteRemovesRuneAt | internal/ui/text_writer_view.go:321-331 | At the end, Delete does nothing. Otherwise it removes the rune at the cursor, keeps the cursor and remembers the column. |
| TextWriter.HorizontalMoveIsClamped | internal/ui/text_writer_view.go:275-286 | Left and right move by 1, or by 5 with Shift, clamped to the text. The column is remembered. |
| TextWriter.MoveUpLandsOnTarget | internal/ui/text_writer_view.go:287-292 | Up moves 1 line, or 3 with Shift, stopping at line 0. It lands on the desired column clamped to the line's length. |
| TextWriter.MoveDownLandsOnTarget | internal/ui/text_writer_view.go:293-298 | Down moves 1 line, or 3 with Shift, stopping at the last line. It lands on the desired column clamped to the line's length. |
| TextWriter.HomeAndEndStayOnLine | internal/ui/text_writer_view.go:299-304 | Home goes to column 0 and End to the line's length. Both stay on the line and remember the column. |
| TextWriter.VerticalScrollShowsLine | internal/ui/text_writer_view.go:496-507 | The scroll brings the line into a non-empty area. An already visible line does not scroll. |
| TextWriter.HandleKeyShowsCursorLine | internal/ui/text_writer_view.go:269-348 | After any key, on a screen with room for text, the cursor's line is on screen. |
| TextWriter.LineSitsAtLineStart | internal/ui/text_writer_view.go:457-466 | An existing line lies in the text, rune by rune, from its line start. |
| TextWriter.OffsetOfExistingLine | internal/ui/text_writer_view.go:452-487 | For an existing line, the offset is the line's start plus the column clamped to the line's length. |
| TextWriter.OffsetOfMissingLine | internal/ui/text_writer_view.go:452-487 | For a line past the end (or negative), the offset is the end of the text. |
| TextWriter.FindLineStart | internal/ui/text_writer_view.go:457-466 | The first loop of setCursorToLineCol finds the line's start. |
| TextWriter.WalkColumns | internal/ui/text_writer_view.go:469-476 | The second loop walks at most `col` runes of the line. |
| TextWriter.TextWriterView.constructor | internal/ui/text_writer_view.go:39-78 | The cursor is at the end of the initial text and the desired column is its column. A maximum length of 0 becomes 150. |
| TextWriter.TextWriterView.UpdateTextLines | internal/ui/text_writer_view.go:81-83 | The rendered lines become the split text. Nothing else changes. |
| TextWriter.TextWriterView.CursorLineCol | internal/ui/text_writer_view.go:86-104 | The walk returns the cursor's line and column. |
| TextWriter.TextWriterView.SyncBuffer | internal/ui/text_writer_view.go:360-363 | The buffer becomes the text. |
| TextWriter.TextWriterView.InsertTextAtCursor | internal/ui/text_writer_view.go:351-357 | The text is inserted at the cursor, the cursor advances past it and the buffer is synced. |
| TextWriter.TextWriterView.UpdateDesiredCol | internal/ui/text_writer_view.go:366-369 | The desired column becomes the cursor's column. |
| TextWriter.TextWriterView.MoveCursorLeftBy | internal/ui/text_writer_view.go:372-379 | The cursor moves left, clamped at 0, and the column is remembered. |
| TextWriter.TextWriterView.MoveCursorRightBy | internal/ui/text_writer_view.go:382-390 | The cursor moves right, clamped at the end, and the column is remembered. |
| TextWriter.TextWriterView.MoveCursorUpBy | internal/ui/text_writer_view.go:393-408 | The cursor goes to the target line, clamped at 0, on the desired column clamped to that line. |
| TextWriter.TextWriterView.MoveCursorDownBy | internal/ui/text_writer_view.go:411-426 | The cursor goes to the target line, clamped at the last line, on the desired column clamped to that line. |
| TextWriter.TextWriterView.MoveCursorToLineStart | internal/ui/text_writer_view.go:439-442 | The cursor goes to column 0 of its line. |
| TextWriter.TextWriterView.MoveCursorToLineEnd | internal/ui/text_writer_view.go:445-449 | The cursor goes to the end of its line. |
| TextWriter.TextWriterView.SetCursorToLineCol | internal/ui/text_writer_view.go:452-487 | The cursor becomes the offset of the line and column. |
| TextWriter.TextWriterView.EnsureCursorVisible | internal/ui/text_writer_view.go:490-508 | The vertical scroll follows the cursor's line, and nothing changes on a zero-sized screen. |
| TextWriter.TextWriterView.Resize | internal/ui/text_writer_view.go:263-267 | The screen size is recorded. |
| TextWriter.TextWriterView.EditStep | internal/ui/text_writer_view.go:274-339 | The key switch performs the edit of the key. |
| TextWriter.TextWriterView.MoveStep | internal/ui/text_writer_view.go:275-304 | The movement keys perform their move. |
| TextWriter.TextWriterView.TextStep | internal/ui/text_writer_view.go:305-338 | Enter, Backspace, Delete and printable runes perform their edit. |
| TextWriter.TextWriterView.HandleKeyEvent | internal/ui/text_writer_view.go:269-348 | The state becomes the key's edit, with the lines re-split when the text changed and the view scrolled to the cursor. The view stays valid. |
| Mcp.StringArgument | cmd/fjira-cli/commands/mcp.go:79 | An argument is present as a string exactly when the map holds a string under that name. |
| Mcp.TruncateTowardZero | cmd/fjira-cli/commands/mcp.go:165 | Go's float-to-int conversion drops the fraction, towards zero. |
| Mcp.MaxResults | cmd/fjira-cli/commands/mcp.go:161-170 | `max_results` is 1 to 100. It is the truncated number when that lies in range, and 10 when the argument is missing, not a number or out of range. |
| Mcp.StartsWithAppend | cmd/fjira-cli/commands/mcp.go:199-237 | Writing more to a builder keeps what it starts with. |
| Mcp.StartsWithTransitive | cmd/fjira-cli/commands/mcp.go:199-237 | A prefix of a prefix is a prefix. |
| Mcp.WriteAllKeepsPrefix | cmd/fjira-cli/commands/mcp.go:199-237 | Writing parts keeps what the builder already held at its front. |
| Mcp.WriteAllSplit | cmd/fjira-cli/commands/mcp.go:228-232 | Writing parts in one go is writing those before k and then the rest. |
| Mcp.PartAt | cmd/fjira-cli/commands/mcp.go:228-232 | Each part appears whole in the output, right after the parts before it. |
| Mcp.AssigneeShown | cmd/fjira-cli/commands/mcp.go:208-212 | The assignee is shown by display name, or as "Unassigned" when that is empty. |
| Mcp.LabelsSection | cmd/fjira-cli/commands/mcp.go:216-218 | The labels line is present exactly when the issue has labels. |
| Mcp.DescriptionSection | cmd/fjira-cli/commands/mcp.go:220-223 | The description section is present exactly when the description is non-empty. |
| Mcp.CommentBlocks | cmd/fjira-cli/commands/mcp.go:228-232 | There is one block per comment, numbered from 1 in comment order. |
| Mcp.IssueSummaries | cmd/fjira-cli/commands/mcp.go:253-262 | There is one summary block per issue, in order. |
| Mcp.IssueMarkdownLayout | cmd/fjira-cli/commands/mcp.go:199-223 | The issue Markdown starts with the heading, and the heading with `# Issue: <key>`. Without labels or description, the comments heading follows the heading directly. |
| Mcp.IssueMarkdownComments | cmd/fjira-cli/commands/mcp.go:225-235 | With no comments, the Markdown ends with "No comments available." Otherwise comment k appears whole at its place. |
| Mcp.SearchMarkdownLayout | cmd/fjira-cli/commands/mcp.go:241-251 | The search Markdown starts with the heading, which holds the JQL and the counts. With no issues, it is the heading followed by "No issues found matching the query.". |
| Mcp.SearchBodyShowsEachIssue | cmd/fjira-cli/commands/mcp.go:253-262 | Each issue's summary appears whole after the heading and the summaries before it. |
| Mcp.FormatIssueWithComments | cmd/fjira-cli/commands/mcp.go:199-238 | The builder's writes produce the issue Markdown. |
| Mcp.AppendComments | cmd/fjira-cli/commands/mcp.go:228-232 | The comment loop writes the comment blocks in order. |
| Mcp.FormatSearchResults | cmd/fjira-cli/commands/mcp.go:241-265 | The builder's writes produce the search Markdown. |
| Mcp.GetIssueHandler | cmd/fjira-cli/commands/mcp.go:77-130 | A non-string key gives "must be a string" and a blank key gives "cannot be empty". The call succeeds exactly when the trimmed key is fetched without error, and the text is then that issue's Markdown. |
| Mcp.SearchIssuesHandler | cmd/fjira-cli/commands/mcp.go:133-196 | A non-string or blank jql gives its error message. The call succeeds exactly when the first page for the trimmed JQL and max results is fetched. The text is then that page's Markdown. |
| Mcp.GetIssueAsksOnlyForTrimmedKey | cmd/fjira-cli/commands/mcp.go:93-107 | The handler's answer depends on the API only through the trimmed key. |
| Mcp.SearchAsksOnlyForFirstPage | cmd/fjira-cli/commands/mcp.go:148-173 | The handler asks only for page 0 of the trimmed JQL, with a max results of 1 to 100. |

## Behaviour as written

These behaviours of the code are easy to miss, and the model states them:

- **Init on a failed request.** When a page request fails, Init leaves `allIssues` holding the pages gathered so far, and the shown list is untouched (`BoardProperties.LoadBoardFailure`).
- **Which transition moveIssue takes.** moveIssue takes the LAST transition whose target status belongs to the target column, because the `break` only leaves the inner loop (`BoardLayout.LastMatchingTransitionIsLast`).
- **A failed move of a held issue.** The cursor stays in the new column and the issue stays held (`BoardProperties.HeldMoveFailureKeepsCursorMoved`).
- **Which issue the transition updates.** The issue is updated in `issues`, not in `allIssues`.
- **The vertical viewport test.** ensureHighlightInViewport compares `scrollY + cursorY` with `scrollY`. That test holds for every cursor below the first row, and `BoardLayout.ViewportScroll` states it that way.
- **The refetch rule of findIssues.** It tests the previous query, not the new one, against the issue-key pattern.
- **The numeric prefix of searchForIssues.** The numeric-only test also looks at the previous query.

## Left out

- **Rendering:**
  - Draw, drawColumnsHeaders and getCursorScreenX. Draw also re-applies ensureHighlightInViewport on every frame, so the scroll on screen is `BoardLayout.ViewportScroll` of the state, which `BoardLayout.ViewportScrollIdempotent` shows settles after one frame.
  - refreshIssuesSummaries and refreshIssueTopBar, whose summaries and top-bar text are only displayed.
  - The loading spinner, error and success messages.
- **Concurrency and navigation:**
  - The goroutines and channels of handleActions, handleSearchActions and handleBottomBarActions.
  - The fuzzy-find pickers, whose choice arrives as a parameter.
  - Navigation to other views. `HandleKeyEvent` of the board returns the issue id that Enter opens instead.
- **Jira API calls.** These become function parameters. The board loads with the fixed current-sprint JQL, which is not a parameter. The text of a failed API call's error result is not modelled, only that it is an error.
- **Board.BoardView.Init:**
  - Go's page loop has no bound when the tracker keeps answering with empty pages. The model bounds it by `maxRequests` requests, so a load that would never end is not captured.
  - The page offset is modelled: page `n` is asked for at `n * IssueFetchBatchSize`, with the batch size 100. The page-size argument that Go also passes to `GetBoardIssues` is not given to the `getPage` parameter, so that parameter may return pages of any length.
  - The int32 width of the page counter is not modelled.
- **Board.BoardView.MoveCursorRight and Board.BoardView.MoveCursorLeft:**
  - The unused `recursionDepth` argument is not modelled.
  - Directions other than +1 and -1 are not needed, because moveIssue maps any direction to ±1.
- **Board.BoardView.HandleKeyEvent.** The highlight is a value with an index, not a pointer, so the nil check on the highlight becomes a check of a non-empty id. Go also passes the key to the bottom bars, which is not modelled.
- **Issue selection.** No line of board_view.go sets `issueSelected` to true; handleActions only clears it. The model keeps the flag as state that any caller may set, so the holding mode is modelled even though its entry is not.
- **Distinct issue ids.** The board lemmas about rows and cells assume that issue ids are distinct (`DistinctIssueIds`). Go does not check this.
- **Board.UsersNamed.** Go ranges over a map, so the order of the assignees is unspecified. The model promises the set of names, not an order.
- **JqlBuilder.BuildSearchIssuesJql:**
  - The builder takes one optional exclude status. searchForIssues passes the whole slice of excluded statuses, which does not type-check against that signature.
  - The model passes the exclude status explicitly.
  - The label "All" and the message constants of the `ui` package are the literals "All" and "Unassigned". That package is not part of this model.
- **Text.TrimSpace.** Only ASCII white space is removed. Unicode spaces are not modelled.
- BoardLayout.CenterString: the width, the padding and the cut count runes, while Go's `len(str)` and `str[:width]` count bytes. A column name with non-ASCII letters is padded and cut differently in Go, and Go's byte cut can split a rune, which a `seq<char>` cannot represent. ASCII names behave the same in both.
- **TextWriter.TextWriterView.TextStep.** The Unicode classes that decide whether a rune is typed (letter, digit, space, punctuation, symbol) arrive as a `graphic` flag on the key.
- **TextWriter.TextWriterView.constructor.** Go starts the cursor at the byte length of the initial text, while every other operation counts runes. The model counts runes throughout, so a multi-byte initial text is not captured. The same goes for the byte-length test guarding Delete, which the rune test below it subsumes.
- **TextWriter.TextWriterView.HandleKeyEvent.** The maximum length is stored but never enforced, as in Go. The text consumer, the go-back callback and the bottom bar are not modelled.
- **Mcp.SearchIssuesHandler.** A NaN or infinite `max_results`, and the wrap-around of the int32 conversion for huge values, are not modelled. The truncation of finite values is modelled.
- **Mcp.FormatIssueWithComments and Mcp.FormatSearchResults.** Where Go writes one Markdown line in two `WriteString` calls, the model writes their concatenation once.
- **Mcp.SearchMarkdownLayout.** The placement of each issue's summary is stated on `Mcp.SearchBody`, which `SearchMarkdown` applies to the heading (`Mcp.SearchBodyShowsEachIssue`).
- **MCP server.** Setting up the MCP server, tool registration and configuration loading (in mcp.go outside the two handlers) are not part of this model.
