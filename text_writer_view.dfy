/** The multi-line text editor view (internal/ui/text_writer_view.go): a rune buffer with a cursor
    offset, the line/column view of that offset, edits at the cursor, cursor moves that keep a
    desired column, vertical scrolling and the horizontal window over a long line. */
module TextWriter {
  import opened Jira
  import Text

  // ---------------------------------------------------------------------------------------------
  // Lines and columns of a text

  /** strings.Split(text, "\n"): the lines of `t`, always at least one. */
  function SplitLines(t: Str): (lines: seq<Str>)
    ensures |lines| >= 1
  {
    if t == [] then [[]]
    else if t[0] == '\n' then [[]] + SplitLines(t[1..])
    else
      var rest := SplitLines(t[1..]);
      [[t[0]] + rest[0]] + rest[1..]
  }

  /** getCursorLineCol's scan from `line`, `col` with `pos` runes still to pass: a newline starts
      the next line at column 0, any other rune moves one column on; a `pos` that never reaches 0
      (negative, or past the end) scans the whole text. */
  function ScanLineCol(t: Str, pos: int, line: int, col: int): (r: (int, int))
    ensures r.0 >= line && (r.0 == line ==> r.1 >= col) && (col >= 0 ==> r.1 >= 0)
    decreases |t|
  {
    if pos == 0 || t == [] then (line, col)
    else if t[0] == '\n' then ScanLineCol(t[1..], pos - 1, line + 1, 0)
    else ScanLineCol(t[1..], pos - 1, line, col + 1)
  }

  /** The line and column of offset `pos` of `t`. */
  function LineColOf(t: Str, pos: int): (int, int)
  {
    ScanLineCol(t, pos, 0, 0)
  }

  /** setCursorToLineCol's first loop: the offset just past the `line`-th newline, or the end of
      the text when there are fewer lines (or `line` is negative). */
  function LineStart(t: Str, line: int): (start: nat)
    ensures start <= |t|
  {
    if line == 0 || t == [] then 0
    else if t[0] == '\n' then 1 + LineStart(t[1..], line - 1)
    else 1 + LineStart(t[1..], line)
  }

  /** setCursorToLineCol's second loop over the text from a line start: up to `col` runes, never
      past the end of the line (a negative `col` goes to the end of the line). */
  function ColumnOffset(s: Str, col: int): (offset: nat)
    ensures offset <= |s|
  {
    if col == 0 || s == [] || s[0] == '\n' then 0
    else 1 + ColumnOffset(s[1..], col - 1)
  }

  /** setCursorToLineCol: the offset of (`line`, `col`), always within the text. */
  function OffsetOf(t: Str, line: int, col: int): (pos: nat)
    ensures pos <= |t|
  {
    var start := LineStart(t, line);
    start + ColumnOffset(t[start..], col)
  }

  /** The line accumulator of the scan only shifts the line; the column accumulator shifts the
      column as long as no newline is passed. */
  lemma {:induction false} ScanShift(t: Str, pos: int, line: int, col: int)
    ensures ScanLineCol(t, pos, line, col) ==
            if LineColOf(t, pos).0 == 0 then (line, col + LineColOf(t, pos).1)
            else (line + LineColOf(t, pos).0, LineColOf(t, pos).1)
    decreases |t|
  {
    if pos != 0 && t != [] {
      if t[0] == '\n' {
        ScanShift(t[1..], pos - 1, line + 1, 0);
        ScanShift(t[1..], pos - 1, 1, 0);
        assert LineColOf(t, pos) == ScanLineCol(t[1..], pos - 1, 1, 0);
      } else {
        ScanShift(t[1..], pos - 1, line, col + 1);
        ScanShift(t[1..], pos - 1, 0, 1);
        assert LineColOf(t, pos) == ScanLineCol(t[1..], pos - 1, 0, 1);
      }
    }
  }

  /** From an offset to its line and column and back gives the offset again. */
  lemma {:induction false} OffsetOfLineCol(t: Str, pos: int)
    requires 0 <= pos <= |t|
    ensures var (l, c) := LineColOf(t, pos);
            OffsetOf(t, l, c) == pos
    decreases |t|
  {
    if pos != 0 {
      var (l1, c1) := LineColOf(t[1..], pos - 1);
      OffsetOfLineCol(t[1..], pos - 1);
      if t[0] == '\n' {
        ScanShift(t[1..], pos - 1, 1, 0);
        assert t[1..][LineStart(t[1..], l1)..] == t[LineStart(t, l1 + 1)..];
      } else {
        ScanShift(t[1..], pos - 1, 0, 1);
        if l1 != 0 {
          assert t[1..][LineStart(t[1..], l1)..] == t[LineStart(t, l1)..];
        } else {
          assert t[1..][0..] == t[1..] && t[0..] == t;
        }
      }
    }
  }

  /** From a line and a column of that line to an offset and back gives them again. */
  lemma {:induction false} LineColOfOffset(t: Str, line: int, col: int)
    requires 0 <= line < |SplitLines(t)| && 0 <= col <= |SplitLines(t)[line]|
    ensures LineColOf(t, OffsetOf(t, line, col)) == (line, col)
    decreases |t|
  {
    if t != [] {
      if t[0] == '\n' {
        if line != 0 {
          LineColOfOffset(t[1..], line - 1, col);
          assert t[1..][LineStart(t[1..], line - 1)..] == t[LineStart(t, line)..];
          ScanShift(t[1..], OffsetOf(t[1..], line - 1, col), 1, 0);
        }
      } else if line == 0 {
        if col != 0 {
          LineColOfOffset(t[1..], 0, col - 1);
          ScanShift(t[1..], OffsetOf(t[1..], 0, col - 1), 0, 1);
        }
      } else {
        LineColOfOffset(t[1..], line, col);
        assert t[1..][LineStart(t[1..], line)..] == t[LineStart(t, line)..];
        ScanShift(t[1..], OffsetOf(t[1..], line, col), 0, 1);
      }
    }
  }

  /** The line of any offset is one of the text's lines, and its column is within that line. */
  lemma {:induction false} LineColInRange(t: Str, pos: int)
    requires 0 <= pos <= |t|
    ensures var (l, c) := LineColOf(t, pos);
            0 <= l < |SplitLines(t)| && 0 <= c <= |SplitLines(t)[l]|
    decreases |t|
  {
    if pos != 0 {
      LineColInRange(t[1..], pos - 1);
      if t[0] == '\n' {
        ScanShift(t[1..], pos - 1, 1, 0);
      } else {
        ScanShift(t[1..], pos - 1, 0, 1);
      }
    }
  }

  /** One more rune of scanning: a newline moves to column 0 of the next line, any other rune one
      column to the right. */
  lemma {:induction false} ScanStep(t: Str, pos: int, line: int, col: int)
    requires 0 <= pos < |t|
    ensures ScanLineCol(t, pos + 1, line, col) ==
            var (l, c) := ScanLineCol(t, pos, line, col);
            if t[pos] == '\n' then (l + 1, 0) else (l, c + 1)
    decreases pos
  {
    if pos != 0 {
      assert t[1..][pos - 1] == t[pos];
      if t[0] == '\n' {
        ScanStep(t[1..], pos - 1, line + 1, 0);
      } else {
        ScanStep(t[1..], pos - 1, line, col + 1);
      }
    }
  }

  /** The number of newlines in `s`. */
  function Newlines(s: Str): (n: nat)
    ensures n <= |s|
  {
    if s == [] then 0 else Newlines(s[..|s| - 1]) + (if s[|s| - 1] == '\n' then 1 else 0)
  }

  /** The number of runes after the last newline of `s` (all of them when there is none). */
  function RunesAfterLastNewline(s: Str): (n: nat)
    ensures n <= |s|
  {
    if s == [] || s[|s| - 1] == '\n' then 0 else RunesAfterLastNewline(s[..|s| - 1]) + 1
  }

  /** The cursor's line is the number of newlines before it and its column the number of runes
      since the last of them. */
  lemma {:induction false} LineColCounts(t: Str, pos: int)
    requires 0 <= pos <= |t|
    ensures LineColOf(t, pos) == (Newlines(t[..pos]), RunesAfterLastNewline(t[..pos]))
    decreases pos
  {
    if pos != 0 {
      LineColCounts(t, pos - 1);
      ScanStep(t, pos - 1, 0, 0);
      assert t[..pos][..pos - 1] == t[..pos - 1];
    }
  }

  /** Joined with newlines, the lines give the text back. */
  lemma {:induction false} SplitLinesJoin(t: Str)
    ensures Text.Join(SplitLines(t), "\n") == t
    decreases |t|
  {
    if t != [] {
      var rest := SplitLines(t[1..]);
      SplitLinesJoin(t[1..]);
      if t[0] == '\n' {
        assert SplitLines(t) == [[]] + rest;
        assert ([[]] + rest)[1..] == rest;
      } else if |rest| == 1 {
        assert SplitLines(t) == [[t[0]] + rest[0]];
      } else {
        assert SplitLines(t) == [[t[0]] + rest[0]] + rest[1..];
        assert Text.Join(rest, "\n") == rest[0] + "\n" + Text.Join(rest[1..], "\n");
        assert ([[t[0]] + rest[0]] + rest[1..])[1..] == rest[1..];
      }
    }
  }

  /** No line holds a newline. */
  lemma {:induction false} SplitLinesHaveNoNewline(t: Str)
    ensures forall i, j :: 0 <= i < |SplitLines(t)| && 0 <= j < |SplitLines(t)[i]| ==> SplitLines(t)[i][j] != '\n'
    decreases |t|
  {
    if t != [] {
      var rest := SplitLines(t[1..]);
      SplitLinesHaveNoNewline(t[1..]);
      forall i, j | 0 <= i < |SplitLines(t)| && 0 <= j < |SplitLines(t)[i]|
        ensures SplitLines(t)[i][j] != '\n'
      {
        if t[0] == '\n' {
          assert SplitLines(t)[i] == ([[]] + rest)[i];
        } else if i == 0 {
          assert SplitLines(t)[0] == [t[0]] + rest[0];
        } else {
          assert SplitLines(t)[i] == rest[i];
        }
      }
    }
  }

  // ---------------------------------------------------------------------------------------------
  // The horizontal window over the cursor's line

  /** Runes kept between the cursor and either edge of the window on a long line. */
  const CursorMargin := 4

  /** getScrolledLineForCursor's first visible rune: centred on the cursor, then clamped to the
      line, to at most `CursorMargin` runes after the cursor's left edge and before its right
      edge, and finally to 0. */
  function WindowStart(lineLength: int, cursorCol: int, textWidth: int): int
  {
    var idealStart := cursorCol - textWidth / 2;
    var minStart := cursorCol - textWidth + CursorMargin + 1;
    var maxStart := cursorCol - CursorMargin;
    var s1 := if idealStart < 0 then 0 else idealStart;
    var s2 := if s1 > lineLength - textWidth then lineLength - textWidth else s1;
    var s3 := if s2 < minStart then minStart else s2;
    var s4 := if s3 > maxStart then maxStart else s3;
    if s4 < 0 then 0 else s4
  }

  /** getScrolledLineForCursor: the part of the cursor's line shown in a text area `textWidth`
      runes wide, and whether runes are hidden on the left and on the right. A line that fits is
      shown whole; a longer one is shown as a contiguous slice that fills the area unless it runs
      into the end of the line first. */
  function ScrolledLine(line: Str, cursorCol: int, textWidth: int): (r: (Str, bool, bool))
    requires textWidth > 0 && 0 <= cursorCol <= |line|
    ensures |line| <= textWidth ==> r == (line, false, false)
    ensures |line| > textWidth ==>
              var start := WindowStart(|line|, cursorCol, textWidth);
              0 <= start <= start + |r.0| <= |line| && |r.0| <= textWidth &&
              r.0 == line[start..start + |r.0|] &&
              (|r.0| == textWidth || start + |r.0| == |line|) &&
              (r.1 <==> start > 0) && (r.2 <==> start + |r.0| < |line|)
  {
    if |line| <= textWidth then (line, false, false)
    else
      var start := WindowStart(|line|, cursorCol, textWidth);
      var end := if start + textWidth > |line| then |line| else start + textWidth;
      (line[start..end], start > 0, end < |line|)
  }

  /** On an area wider than both margins, the cursor stays inside the window, at least
      `CursorMargin` runes from its right edge, and at least that far from its left edge unless
      the window starts at the beginning of the line. */
  lemma ScrolledLineShowsCursor(line: Str, cursorCol: int, textWidth: int)
    requires 2 * CursorMargin < textWidth < |line| && 0 <= cursorCol <= |line|
    ensures var start := WindowStart(|line|, cursorCol, textWidth);
            var shown := ScrolledLine(line, cursorCol, textWidth).0;
            start <= cursorCol <= start + |shown| &&
            (start == 0 || start + CursorMargin <= cursorCol) &&
            cursorCol + CursorMargin < start + textWidth
  {
  }

  // ---------------------------------------------------------------------------------------------
  // Editing and moving the cursor, on values

  /** Where the text area starts on the screen; the area ends three rows above the bottom. */
  const TextStartY := 4
  /** The maximum length a view is given when its caller gives none (never enforced). */
  const DefaultMaxLength := 150

  /** What the key handling works on: the text as runes, the cursor offset into it, the column
      kept for vertical moves, the first visible line and the screen size. */
  datatype Editor = Editor(text: Str, cursorPos: int, desiredCol: int, scrollY: int,
                           screenX: int, screenY: int)

  /** The cursor is within the text, and the kept column and the scroll are not negative. */
  predicate CursorInText(e: Editor)
  {
    0 <= e.cursorPos <= |e.text| && e.desiredCol >= 0 && e.scrollY >= 0
  }

  function CursorLine(e: Editor): int
  {
    LineColOf(e.text, e.cursorPos).0
  }

  function CursorCol(e: Editor): int
  {
    LineColOf(e.text, e.cursorPos).1
  }

  /** The lines the view renders (kept in step with the text). */
  function Lines(e: Editor): seq<Str>
  {
    SplitLines(e.text)
  }

  /** updateDesiredCol: remember the cursor's current column. */
  function KeepColumn(e: Editor): Editor
  {
    e.(desiredCol := CursorCol(e))
  }

  /** insertTextAtCursor. */
  function InsertAtCursor(e: Editor, s: Str): (r: Editor)
    requires 0 <= e.cursorPos <= |e.text|
  {
    e.(text := e.text[..e.cursorPos] + s + e.text[e.cursorPos..], cursorPos := e.cursorPos + |s|)
  }

  /** The backspace branch: only a cursor inside the text, after its first rune, removes the rune
      before it. */
  function Backspace(e: Editor): (r: Editor)
  {
    if e.cursorPos > 0 && e.cursorPos <= |e.text| then
      KeepColumn(e.(text := e.text[..e.cursorPos - 1] + e.text[e.cursorPos..], cursorPos := e.cursorPos - 1))
    else e
  }

  /** The delete branch: a cursor before the end removes the rune under it. */
  function Delete(e: Editor): (r: Editor)
    requires 0 <= e.cursorPos
  {
    if e.cursorPos < |e.text| then
      KeepColumn(e.(text := e.text[..e.cursorPos] + e.text[e.cursorPos + 1..]))
    else e
  }

  /** moveCursorLeftBy. */
  function MoveLeftBy(e: Editor, steps: int): Editor
  {
    var p := e.cursorPos - steps;
    KeepColumn(e.(cursorPos := if p < 0 then 0 else p))
  }

  /** moveCursorRightBy. */
  function MoveRightBy(e: Editor, steps: int): Editor
  {
    var p := e.cursorPos + steps;
    KeepColumn(e.(cursorPos := if p > |e.text| then |e.text| else p))
  }

  /** The column a vertical move lands on: the kept column, cut to the target line's length. */
  function LandingColumn(desiredCol: int, lineLength: int): int
  {
    if desiredCol > lineLength then lineLength else desiredCol
  }

  /** The last part of a vertical move: an existing target line is entered on the kept column,
      cut to the line's length; the kept column is not updated. */
  function LandOnLine(e: Editor, target: int): Editor
  {
    var lines := Lines(e);
    if 0 <= target < |lines| then
      e.(cursorPos := OffsetOf(e.text, target, LandingColumn(e.desiredCol, |lines[target]|)))
    else e
  }

  /** moveCursorUpBy: the target line is at least the first. */
  function MoveUpBy(e: Editor, steps: int): Editor
  {
    LandOnLine(e, if CursorLine(e) - steps < 0 then 0 else CursorLine(e) - steps)
  }

  /** moveCursorDownBy: the target line is at most the last. */
  function MoveDownBy(e: Editor, steps: int): Editor
  {
    var last := |Lines(e)| - 1;
    LandOnLine(e, if CursorLine(e) + steps >= last + 1 then last else CursorLine(e) + steps)
  }

  /** moveCursorToLineStart. */
  function MoveToLineStart(e: Editor): Editor
  {
    e.(cursorPos := OffsetOf(e.text, CursorLine(e), 0))
  }

  /** moveCursorToLineEnd. */
  function MoveToLineEnd(e: Editor): Editor
    requires 0 <= e.cursorPos <= |e.text|
  {
    LineColInRange(e.text, e.cursorPos);
    e.(cursorPos := OffsetOf(e.text, CursorLine(e), |Lines(e)[CursorLine(e)]|))
  }

  /** ensureCursorVisible's arithmetic: scroll up to a cursor line above the area, down to one
      below it, and never above the first line. */
  function VerticalScroll(scrollY: int, cursorLine: int, textHeight: int): int
  {
    var s := if cursorLine < scrollY then cursorLine
             else if cursorLine >= scrollY + textHeight then cursorLine - textHeight + 1
             else scrollY;
    if s < 0 then 0 else s
  }

  /** ensureCursorVisible: nothing happens before the screen has a size. */
  function ScrollToCursor(e: Editor): Editor
  {
    if e.screenX <= 0 || e.screenY <= 0 then e
    else e.(scrollY := VerticalScroll(e.scrollY, CursorLine(e), e.screenY - TextStartY - 3))
  }

  /** The keys the editor reacts to. A rune key carries whether it is a letter, a digit, a space,
      a punctuation mark or a symbol; every other key is a rune key that is none of these. */
  datatype TextKey =
    | KeyLeft(shiftLeft: bool) | KeyRight(shiftRight: bool)
    | KeyUp(shiftUp: bool) | KeyDown(shiftDown: bool)
    | KeyHome | KeyEnd | KeyEnter | KeyBackspace | KeyDelete
    | KeyRune(ch: char, graphic: bool)

  /** The steps of a horizontal and a vertical move, with and without Shift. */
  function HorizontalSteps(shift: bool): int { if shift then 5 else 1 }
  function VerticalSteps(shift: bool): int { if shift then 3 else 1 }

  /** The switch of HandleKeyEvent. */
  function Edit(e: Editor, key: TextKey): Editor
    requires 0 <= e.cursorPos <= |e.text|
  {
    match key
    case KeyLeft(shift) => MoveLeftBy(e, HorizontalSteps(shift))
    case KeyRight(shift) => MoveRightBy(e, HorizontalSteps(shift))
    case KeyUp(shift) => MoveUpBy(e, VerticalSteps(shift))
    case KeyDown(shift) => MoveDownBy(e, VerticalSteps(shift))
    case KeyHome => KeepColumn(MoveToLineStart(e))
    case KeyEnd => KeepColumn(MoveToLineEnd(e))
    case KeyEnter => KeepColumn(InsertAtCursor(e, "\n"))
    case KeyBackspace => Backspace(e)
    case KeyDelete => Delete(e)
    case KeyRune(ch, graphic) =>
      if graphic && ch != 0 as char then KeepColumn(InsertAtCursor(e, [ch])) else e
  }

  /** HandleKeyEvent: the edit or move, then the scroll that keeps the cursor's line visible. */
  function HandleKey(e: Editor, key: TextKey): Editor
    requires 0 <= e.cursorPos <= |e.text|
  {
    ScrollToCursor(Edit(e, key))
  }

  // ---------------------------------------------------------------------------------------------
  // Properties of the key handling

  /** Every key keeps the cursor within the text and the kept column and the scroll non-negative;
      the screen size is the key handling's input, never its output. */
  lemma HandleKeyKeepsCursorInText(e: Editor, key: TextKey)
    requires CursorInText(e)
    ensures var r := HandleKey(e, key);
            CursorInText(r) && r.screenX == e.screenX && r.screenY == e.screenY
  {
  }

  /** A rune typed and then taken back with backspace leaves the text and the cursor as they were. */
  lemma TypeThenBackspace(e: Editor, ch: char)
    requires CursorInText(e) && ch != 0 as char
    ensures var typed := HandleKey(e, KeyRune(ch, true));
            var r := HandleKey(typed, KeyBackspace);
            r.text == e.text && r.cursorPos == e.cursorPos
  {
    var typed := HandleKey(e, KeyRune(ch, true));
    assert typed.text[..typed.cursorPos - 1] == e.text[..e.cursorPos];
    assert typed.text[typed.cursorPos..] == e.text[e.cursorPos..];
  }

  /** A rune typed, stepped over to the left and deleted leaves the text as it was. */
  lemma TypeLeftThenDelete(e: Editor, ch: char)
    requires CursorInText(e) && ch != 0 as char
    ensures var typed := HandleKey(e, KeyRune(ch, true));
            var back := HandleKey(typed, KeyLeft(false));
            var r := HandleKey(back, KeyDelete);
            r.text == e.text && r.cursorPos == e.cursorPos
  {
    var typed := HandleKey(e, KeyRune(ch, true));
    assert typed.text[..e.cursorPos] == e.text[..e.cursorPos];
    assert typed.text[e.cursorPos + 1..] == e.text[e.cursorPos..];
  }

  /** Inserting puts the inserted runes between the text before and after the cursor, moves the
      cursor past them, and leaves everything else alone. */
  lemma InsertAtCursorPlaces(e: Editor, s: Str)
    requires 0 <= e.cursorPos <= |e.text|
    ensures var r := InsertAtCursor(e, s);
            |r.text| == |e.text| + |s| && r.cursorPos == e.cursorPos + |s| &&
            r.text[..e.cursorPos] == e.text[..e.cursorPos] && r.text[e.cursorPos..r.cursorPos] == s &&
            r.text[r.cursorPos..] == e.text[e.cursorPos..] &&
            r.(text := e.text, cursorPos := e.cursorPos) == e
  {
    var r := InsertAtCursor(e, s);
    assert r.text[..e.cursorPos] == e.text[..e.cursorPos];
    assert r.text[e.cursorPos..r.cursorPos] == s;
    assert r.text[r.cursorPos..] == e.text[e.cursorPos..];
  }

  /** Backspace after the first rune removes exactly the rune before the cursor and steps back
      over it; at the start of the text it changes nothing. */
  lemma BackspaceRemovesRuneBefore(e: Editor)
    requires CursorInText(e)
    ensures e.cursorPos == 0 ==> Edit(e, KeyBackspace) == e
    ensures e.cursorPos > 0 ==>
              var r := Edit(e, KeyBackspace);
              r.cursorPos == e.cursorPos - 1 && |r.text| == |e.text| - 1 &&
              r.text[..r.cursorPos] == e.text[..r.cursorPos] &&
              r.text[r.cursorPos..] == e.text[e.cursorPos..] && r.desiredCol == CursorCol(r)
  {
    if e.cursorPos > 0 {
      var r := Edit(e, KeyBackspace);
      assert r.text[..r.cursorPos] == e.text[..r.cursorPos];
      assert r.text[r.cursorPos..] == e.text[e.cursorPos..];
    }
  }

  /** Delete before the end removes exactly the rune under the cursor and keeps the cursor; at the
      end of the text it changes nothing. */
  lemma DeleteRemovesRuneAt(e: Editor)
    requires CursorInText(e)
    ensures e.cursorPos == |e.text| ==> Edit(e, KeyDelete) == e
    ensures e.cursorPos < |e.text| ==>
              var r := Edit(e, KeyDelete);
              r.cursorPos == e.cursorPos && |r.text| == |e.text| - 1 &&
              r.text[..e.cursorPos] == e.text[..e.cursorPos] &&
              r.text[e.cursorPos..] == e.text[e.cursorPos + 1..] && r.desiredCol == CursorCol(r)
  {
    if e.cursorPos < |e.text| {
      var r := Edit(e, KeyDelete);
      assert r.text[..e.cursorPos] == e.text[..e.cursorPos];
      assert r.text[e.cursorPos..] == e.text[e.cursorPos + 1..];
    }
  }

  /** Left and right moves step over the given number of runes, stop at either end of the text,
      and remember the column they land on; the text is unchanged. */
  lemma HorizontalMoveIsClamped(e: Editor, shift: bool)
    requires CursorInText(e)
    ensures var n := HorizontalSteps(shift);
            var l := Edit(e, KeyLeft(shift));
            var r := Edit(e, KeyRight(shift));
            l.text == e.text && r.text == e.text &&
            l.cursorPos == (if e.cursorPos >= n then e.cursorPos - n else 0) &&
            r.cursorPos == (if e.cursorPos + n <= |e.text| then e.cursorPos + n else |e.text|) &&
            l.desiredCol == RunesAfterLastNewline(e.text[..l.cursorPos]) &&
            r.desiredCol == RunesAfterLastNewline(e.text[..r.cursorPos])
  {
    LineColCounts(e.text, Edit(e, KeyLeft(shift)).cursorPos);
    LineColCounts(e.text, Edit(e, KeyRight(shift)).cursorPos);
  }

  /** Up moves the given number of lines towards the first line, stopping there, onto the kept
      column or the end of a shorter line; the kept column is not changed. */
  lemma MoveUpLandsOnTarget(e: Editor, shift: bool)
    requires CursorInText(e)
    ensures var n := VerticalSteps(shift);
            var target := if CursorLine(e) >= n then CursorLine(e) - n else 0;
            var r := Edit(e, KeyUp(shift));
            target < |Lines(e)| && r.text == e.text && r.desiredCol == e.desiredCol &&
            CursorLine(r) == target && CursorCol(r) == LandingColumn(e.desiredCol, |Lines(e)[target]|)
  {
    LineColInRange(e.text, e.cursorPos);
    var n := VerticalSteps(shift);
    var target := if CursorLine(e) >= n then CursorLine(e) - n else 0;
    LineColOfOffset(e.text, target, LandingColumn(e.desiredCol, |Lines(e)[target]|));
  }

  /** Down moves the given number of lines towards the last line, stopping there, onto the kept
      column or the end of a shorter line; the kept column is not changed. */
  lemma MoveDownLandsOnTarget(e: Editor, shift: bool)
    requires CursorInText(e)
    ensures var n := VerticalSteps(shift);
            var last := |Lines(e)| - 1;
            var target := if CursorLine(e) + n <= last then CursorLine(e) + n else last;
            var r := Edit(e, KeyDown(shift));
            0 <= target && r.text == e.text && r.desiredCol == e.desiredCol &&
            CursorLine(r) == target && CursorCol(r) == LandingColumn(e.desiredCol, |Lines(e)[target]|)
  {
    LineColInRange(e.text, e.cursorPos);
    var n := VerticalSteps(shift);
    var last := |Lines(e)| - 1;
    var target := if CursorLine(e) + n <= last then CursorLine(e) + n else last;
    LineColOfOffset(e.text, target, LandingColumn(e.desiredCol, |Lines(e)[target]|));
  }

  /** Home goes to column 0 and End to the last column of the cursor's line; both remember it. */
  lemma HomeAndEndStayOnLine(e: Editor)
    requires CursorInText(e)
    ensures var home := Edit(e, KeyHome);
            home.text == e.text && CursorLine(home) == CursorLine(e) && CursorCol(home) == 0 &&
            home.desiredCol == 0
    ensures var end := Edit(e, KeyEnd);
            CursorLine(e) < |Lines(e)| && end.text == e.text && CursorLine(end) == CursorLine(e) &&
            CursorCol(end) == |Lines(e)[CursorLine(e)]| == end.desiredCol
  {
    LineColInRange(e.text, e.cursorPos);
    LineColOfOffset(e.text, CursorLine(e), 0);
    LineColOfOffset(e.text, CursorLine(e), |Lines(e)[CursorLine(e)]|);
  }

  /** The scroll puts a line into a non-empty area and leaves an already visible line where it is. */
  lemma VerticalScrollShowsLine(scrollY: int, line: int, textHeight: int)
    requires 0 <= line && 0 < textHeight
    ensures var r := VerticalScroll(scrollY, line, textHeight);
            0 <= r <= line < r + textHeight &&
            (0 <= scrollY <= line < scrollY + textHeight ==> r == scrollY)
  {
  }

  /** After any key, on a screen with room for text, the cursor's line is on screen. */
  lemma HandleKeyShowsCursorLine(e: Editor, key: TextKey)
    requires CursorInText(e) && e.screenX > 0 && e.screenY > TextStartY + 3
    ensures var r := HandleKey(e, key);
            r.scrollY <= CursorLine(r) < r.scrollY + (e.screenY - TextStartY - 3)
  {
    var edited := Edit(e, key);
    VerticalScrollShowsLine(edited.scrollY, CursorLine(edited), e.screenY - TextStartY - 3);
  }

  /** An existing line of the text sits, rune by rune, at its LineStart. */
  lemma {:induction false} LineSitsAtLineStart(t: Str, line: int)
    requires 0 <= line < |SplitLines(t)|
    ensures LineStart(t, line) + |SplitLines(t)[line]| <= |t|
    ensures forall j :: 0 <= j < |SplitLines(t)[line]| ==> t[LineStart(t, line) + j] == SplitLines(t)[line][j]
    decreases |t|
  {
    if t != [] {
      var rest := SplitLines(t[1..]);
      if t[0] == '\n' {
        if line != 0 {
          LineSitsAtLineStart(t[1..], line - 1);
          assert SplitLines(t)[line] == rest[line - 1];
        }
      } else if line == 0 {
        LineSitsAtLineStart(t[1..], 0);
        assert SplitLines(t)[0] == [t[0]] + rest[0];
      } else {
        LineSitsAtLineStart(t[1..], line);
        assert SplitLines(t)[line] == rest[line];
      }
    }
  }

  /** setCursorToLineCol on an existing line lands on the line's start plus the column, cut to
      the line's length. */
  lemma {:induction false} OffsetOfExistingLine(t: Str, line: int, col: int)
    requires 0 <= line < |SplitLines(t)| && 0 <= col
    ensures OffsetOf(t, line, col) == LineStart(t, line) + LandingColumn(col, |SplitLines(t)[line]|)
    decreases |t|
  {
    if t != [] {
      if t[0] == '\n' {
        if line != 0 {
          OffsetOfExistingLine(t[1..], line - 1, col);
          assert t[1..][LineStart(t[1..], line - 1)..] == t[LineStart(t, line)..];
        }
      } else if line == 0 {
        if col != 0 {
          OffsetOfExistingLine(t[1..], 0, col - 1);
          assert t[0..][1..] == t[1..];
        }
      } else {
        OffsetOfExistingLine(t[1..], line, col);
        assert t[1..][LineStart(t[1..], line)..] == t[LineStart(t, line)..];
      }
    }
  }

  /** setCursorToLineCol on a line the text does not have (or a negative one) goes to the end of
      the text. */
  lemma {:induction false} OffsetOfMissingLine(t: Str, line: int, col: int)
    requires line < 0 || line >= |SplitLines(t)|
    ensures OffsetOf(t, line, col) == |t|
    decreases |t|
  {
    if t != [] {
      if t[0] == '\n' {
        OffsetOfMissingLine(t[1..], line - 1, col);
      } else {
        OffsetOfMissingLine(t[1..], line, col);
      }
    }
  }

  // ---------------------------------------------------------------------------------------------
  // The view

  /** setCursorToLineCol's first walk: pass runes, counting newlines, until `line` newlines are
      behind. */
  method FindLineStart(text: Str, line: int) returns (pos: int)
    ensures pos == LineStart(text, line)
  {
    pos := 0;
    var currentLine := 0;
    var i := 0;
    while i < |text|
      invariant 0 <= i <= |text| && pos == i
      invariant i + LineStart(text[i..], line - currentLine) == LineStart(text, line)
    {
      if currentLine == line {
        break;
      }
      assert text[i..][1..] == text[i + 1..];
      if text[i] == '\n' {
        currentLine := currentLine + 1;
      }
      pos := i + 1;
      i := i + 1;
    }
  }

  /** setCursorToLineCol's second walk: from `start`, pass up to `col` runes of the line. */
  method WalkColumns(text: Str, start: int, col: int) returns (pos: int)
    requires 0 <= start <= |text|
    ensures pos == start + ColumnOffset(text[start..], col)
  {
    pos := start;
    var runesInTargetLine := 0;
    var i := pos;
    while i < |text| && text[i] != '\n'
      invariant start <= i <= |text| && pos == i && runesInTargetLine == i - start
      invariant i + ColumnOffset(text[i..], col - runesInTargetLine) == start + ColumnOffset(text[start..], col)
    {
      if runesInTargetLine == col {
        break;
      }
      assert text[i..][1..] == text[i + 1..];
      runesInTargetLine := runesInTargetLine + 1;
      pos := pos + 1;
      i := i + 1;
    }
  }

  /** TextWriterView: the text and the buffer handed to the consumer, the cursor, the kept
      column, the scroll, the rendered lines and the screen size, all updated in place. */
  class TextWriterView {
    var text: Str
    var buffer: Str
    var cursorPos: int
    var scrollY: int
    var textLines: seq<Str>
    var desiredCol: int
    var screenX: int
    var screenY: int
    const header: Str
    const maxLength: int

    function State(): Editor
      reads this
    {
      Editor(text, cursorPos, desiredCol, scrollY, screenX, screenY)
    }

    /** Between key events the cursor is inside the text, the rendered lines are the text's lines
        and the buffer holds the text. */
    ghost predicate Valid()
      reads this
    {
      CursorInText(State()) && textLines == SplitLines(text) && buffer == text
    }

    /** NewTextWriterView: the cursor at the end of the initial text, on its column. */
    constructor (initialText: Str, header: Str, maxLength: int)
      ensures Valid()
      ensures State() == KeepColumn(Editor(initialText, |initialText|, 0, 0, 0, 0))
      ensures this.header == header
      ensures this.maxLength == if maxLength == 0 then DefaultMaxLength else maxLength
    {
      this.header := header;
      this.maxLength := if maxLength == 0 then DefaultMaxLength else maxLength;
      text := initialText;
      cursorPos := |initialText|;
      scrollY := 0;
      desiredCol := 0;
      buffer := initialText;
      screenX, screenY := 0, 0;
      new;
      UpdateTextLines();
      var line, col := CursorLineCol();
      desiredCol := col;
    }

    /** updateTextLines. */
    method UpdateTextLines()
      modifies this
      ensures textLines == SplitLines(text)
      ensures State() == old(State()) && buffer == old(buffer)
    {
      textLines := SplitLines(text);
    }

    /** getCursorLineCol: walk the runes before the cursor, counting lines and columns. */
    method CursorLineCol() returns (line: int, col: int)
      ensures (line, col) == LineColOf(text, cursorPos)
    {
      line, col := 0, 0;
      var pos := 0;
      while pos < |text|
        invariant 0 <= pos <= |text|
        invariant ScanLineCol(text[pos..], cursorPos - pos, line, col) == LineColOf(text, cursorPos)
      {
        if pos == cursorPos {
          break;
        }
        assert text[pos..][1..] == text[pos + 1..];
        if text[pos] == '\n' {
          line := line + 1;
          col := 0;
        } else {
          col := col + 1;
        }
        pos := pos + 1;
      }
    }

    /** syncBuffer. */
    method SyncBuffer()
      modifies this
      ensures buffer == text
      ensures State() == old(State()) && textLines == old(textLines)
    {
      buffer := text;
    }

    /** insertTextAtCursor; the rendered lines are brought up to date by the key handler. */
    method InsertTextAtCursor(s: Str)
      requires 0 <= cursorPos <= |text|
      modifies this
      ensures State() == InsertAtCursor(old(State()), s)
      ensures buffer == text && textLines == old(textLines)
    {
      text := text[..cursorPos] + s + text[cursorPos..];
      cursorPos := cursorPos + |s|;
      SyncBuffer();
    }

    /** updateDesiredCol. */
    method UpdateDesiredCol()
      modifies this
      ensures State() == KeepColumn(old(State()))
      ensures buffer == old(buffer) && textLines == old(textLines)
    {
      var line, col := CursorLineCol();
      desiredCol := col;
    }

    /** moveCursorLeftBy. */
    method MoveCursorLeftBy(steps: int)
      modifies this
      ensures State() == MoveLeftBy(old(State()), steps)
      ensures buffer == old(buffer) && textLines == old(textLines)
    {
      var newPos := cursorPos - steps;
      if newPos < 0 {
        newPos := 0;
      }
      cursorPos := newPos;
      UpdateDesiredCol();
    }

    /** moveCursorRightBy. */
    method MoveCursorRightBy(steps: int)
      modifies this
      ensures State() == MoveRightBy(old(State()), steps)
      ensures buffer == old(buffer) && textLines == old(textLines)
    {
      var newPos := cursorPos + steps;
      if newPos > |text| {
        newPos := |text|;
      }
      cursorPos := newPos;
      UpdateDesiredCol();
    }

    /** moveCursorUpBy. */
    method MoveCursorUpBy(steps: int)
      requires textLines == SplitLines(text)
      modifies this
      ensures State() == MoveUpBy(old(State()), steps)
      ensures buffer == old(buffer) && textLines == old(textLines)
    {
      ghost var e := State();
      var cursorLine, cursorCol := CursorLineCol();
      var targetLine := cursorLine - steps;
      if targetLine < 0 {
        targetLine := 0;
      }
      if targetLine < |textLines| {
        var targetLineLength := |textLines[targetLine]|;
        var newCol := desiredCol;
        if newCol > targetLineLength {
          newCol := targetLineLength;
        }
        SetCursorToLineCol(targetLine, newCol);
      }
    }

    /** moveCursorDownBy. */
    method MoveCursorDownBy(steps: int)
      requires textLines == SplitLines(text)
      modifies this
      ensures State() == MoveDownBy(old(State()), steps)
      ensures buffer == old(buffer) && textLines == old(textLines)
    {
      ghost var e := State();
      var cursorLine, cursorCol := CursorLineCol();
      var targetLine := cursorLine + steps;
      if targetLine >= |textLines| {
        targetLine := |textLines| - 1;
      }
      assert MoveDownBy(e, steps) == LandOnLine(e, targetLine);
      if targetLine >= 0 && targetLine < |textLines| {
        var targetLineLength := |textLines[targetLine]|;
        var newCol := desiredCol;
        if newCol > targetLineLength {
          newCol := targetLineLength;
        }
        SetCursorToLineCol(targetLine, newCol);
      }
    }

    /** moveCursorToLineStart. */
    method MoveCursorToLineStart()
      modifies this
      ensures State() == MoveToLineStart(old(State()))
      ensures buffer == old(buffer) && textLines == old(textLines)
    {
      var cursorLine, cursorCol := CursorLineCol();
      SetCursorToLineCol(cursorLine, 0);
    }

    /** moveCursorToLineEnd. */
    method MoveCursorToLineEnd()
      requires textLines == SplitLines(text) && 0 <= cursorPos <= |text|
      modifies this
      ensures State() == MoveToLineEnd(old(State()))
      ensures buffer == old(buffer) && textLines == old(textLines)
    {
      var cursorLine, cursorCol := CursorLineCol();
      LineColInRange(text, cursorPos);
      var lineLength := |textLines[cursorLine]|;
      SetCursorToLineCol(cursorLine, lineLength);
    }

    /** setCursorToLineCol: find the start of the line, then walk along it up to the column. The
        source's final clamp to [0, |text|] never fires, as both walks stay within the text. */
    method SetCursorToLineCol(line: int, col: int)
      modifies this
      ensures State() == old(State()).(cursorPos := OffsetOf(text, line, col))
      ensures buffer == old(buffer) && textLines == old(textLines)
    {
      var start := FindLineStart(text, line);
      var pos := WalkColumns(text, start, col);
      cursorPos := pos;
    }

    /** ensureCursorVisible. */
    method EnsureCursorVisible()
      modifies this
      ensures State() == ScrollToCursor(old(State()))
      ensures buffer == old(buffer) && textLines == old(textLines)
    {
      if screenX <= 0 || screenY <= 0 {
        return;
      }
      var cursorLine, cursorCol := CursorLineCol();
      var textHeight := screenY - TextStartY - 3;
      if cursorLine < scrollY {
        scrollY := cursorLine;
      } else if cursorLine >= scrollY + textHeight {
        scrollY := cursorLine - textHeight + 1;
      }
      if scrollY < 0 {
        scrollY := 0;
      }
    }

    /** Resize. */
    method Resize(x: int, y: int)
      modifies this
      ensures State() == old(State()).(screenX := x, screenY := y)
      ensures buffer == old(buffer) && textLines == old(textLines)
    {
      screenX := x;
      screenY := y;
    }

    /** The switch of HandleKeyEvent; the rendered lines are brought up to date afterwards. */
    method EditStep(key: TextKey)
      requires Valid()
      modifies this
      ensures State() == Edit(old(State()), key)
      ensures buffer == text && textLines == old(textLines)
    {
      if key.KeyLeft? || key.KeyRight? || key.KeyUp? || key.KeyDown? || key.KeyHome? || key.KeyEnd? {
        MoveStep(key);
      } else {
        TextStep(key);
      }
    }

    /** The keys that move the cursor. */
    method MoveStep(key: TextKey)
      requires Valid()
      requires key.KeyLeft? || key.KeyRight? || key.KeyUp? || key.KeyDown? || key.KeyHome? || key.KeyEnd?
      modifies this
      ensures State() == Edit(old(State()), key)
      ensures buffer == text && textLines == old(textLines)
    {
      ghost var e := State();
      match key
      case KeyLeft(shift) =>
        assert Edit(e, key) == MoveLeftBy(e, HorizontalSteps(shift));
        MoveCursorLeftBy(HorizontalSteps(shift));
      case KeyRight(shift) =>
        assert Edit(e, key) == MoveRightBy(e, HorizontalSteps(shift));
        MoveCursorRightBy(HorizontalSteps(shift));
      case KeyUp(shift) =>
        assert Edit(e, key) == MoveUpBy(e, VerticalSteps(shift));
        MoveCursorUpBy(VerticalSteps(shift));
      case KeyDown(shift) =>
        assert Edit(e, key) == MoveDownBy(e, VerticalSteps(shift));
        MoveCursorDownBy(VerticalSteps(shift));
      case KeyHome =>
        assert Edit(e, key) == KeepColumn(MoveToLineStart(e));
        MoveCursorToLineStart();
        UpdateDesiredCol();
      case KeyEnd =>
        assert Edit(e, key) == KeepColumn(MoveToLineEnd(e));
        MoveCursorToLineEnd();
        UpdateDesiredCol();
    }

    /** The keys that change the text. */
    method TextStep(key: TextKey)
      requires Valid()
      requires key.KeyEnter? || key.KeyBackspace? || key.KeyDelete? || key.KeyRune?
      modifies this
      ensures State() == Edit(old(State()), key)
      ensures buffer == text && textLines == old(textLines)
    {
      ghost var e := State();
      match key
      case KeyEnter =>
        assert Edit(e, key) == KeepColumn(InsertAtCursor(e, "\n"));
        InsertTextAtCursor("\n");
        UpdateDesiredCol();
      case KeyBackspace =>
        assert Edit(e, key) == Backspace(e);
        if cursorPos > 0 && cursorPos <= |text| {
          text := text[..cursorPos - 1] + text[cursorPos..];
          cursorPos := cursorPos - 1;
          SyncBuffer();
          UpdateDesiredCol();
        }
      case KeyDelete =>
        assert Edit(e, key) == Delete(e);
        // The source also tests the cursor against the text's length in bytes, which is never
        // smaller than its length in runes.
        if cursorPos < |text| {
          text := text[..cursorPos] + text[cursorPos + 1..];
          SyncBuffer();
          UpdateDesiredCol();
        }
      case KeyRune(ch, graphic) =>
        assert Edit(e, key) == if graphic && ch != 0 as char then KeepColumn(InsertAtCursor(e, [ch])) else e;
        if graphic && ch != 0 as char {
          InsertTextAtCursor([ch]);
          UpdateDesiredCol();
        }
    }

    /** HandleKeyEvent: edit or move, refresh the rendered lines when the text changed, and scroll
        the cursor's line into view. */
    method HandleKeyEvent(key: TextKey)
      requires Valid()
      modifies this
      ensures Valid()
      ensures State() == HandleKey(old(State()), key)
    {
      ghost var e := State();
      var oldText := text;
      EditStep(key);
      if text != oldText {
        UpdateTextLines();
      }
      ghost var edited := State();
      assert edited == Edit(e, key) && textLines == SplitLines(text) && buffer == text;
      HandleKeyKeepsCursorInText(e, key);
      assert HandleKey(e, key) == ScrollToCursor(edited);
      EnsureCursorVisible();
    }
  }
}
