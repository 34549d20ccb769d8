/** The line wrapper and the receiver's own wrapping put every character in the same place: lines fed with CR LF leave the
    rows of the wrapper on the screen, the last `rows` of them when there are more. */
module WrapAgreement {
  import opened Numbers
  import opened Strings
  import opened Terminal
  import opened ScrollLog
  import T = TerminalRows

  /** Characters with cells of their own, none of which merges with another. */
  predicate Plain(m: Metrics, text: string) {
    forall i :: 0 <= i < |text| ==> PlainChar(m, text, i)
  }

  predicate PlainChar(m: Metrics, text: string, i: nat)
    requires i < |text|
  {
    && Printable(text[i]) && 1 <= m.width([text[i]])
    && forall j :: 0 <= j < |text| ==> !(text[i] as int > 127 && m.joins([text[j]], text[i]))
  }

  /** The layout measures a character as the receiver does. */
  function Size(m: Metrics): char -> nat { (c: char) => m.width([c]) as nat }

  /** A row of text as screen cells. */
  function Cells(m: Metrics, row: string): (r: Row)
    ensures |r| == T.WidthOf(Size(m), row)
  {
    if row == "" then []
    else
      var c := row[|row| - 1];
      Cells(m, row[..|row| - 1]) + (if m.width([c]) == 0 then [] else [[c]] + BlankRow(m.width([c]) - 1, ""))
  }

  /** A row of text with blanks up to the screen's width. */
  predicate Padded(m: Metrics, cells: Row, row: string) {
    var used := T.WidthOf(Size(m), row);
    used <= |cells| && cells[..used] == Cells(m, row) && forall k :: used <= k < |cells| ==> cells[k] == " "
  }

  predicate Blank(cells: Row) {
    forall k :: 0 <= k < |cells| ==> cells[k] == " "
  }

  /** The log shows `rows`, the last of them being written, and blanks below. */
  predicate Tracks(m: Metrics, l: Log, rows: seq<string>) {
    && LogShaped(l) && rows != [] && l.row == |rows| - 1 && |l.lines| == Max(l.rows, |rows|)
    && l.x == T.WidthOf(Size(m), rows[|rows| - 1])
    && (forall j :: 0 <= j < |rows| ==> Padded(m, l.lines[j], rows[j]))
    && (forall j :: |rows| <= j < |l.lines| ==> Blank(l.lines[j]))
  }

  /** Every character of `row` is one of `text`. */
  predicate AllIn(row: string, text: string) {
    forall k :: 0 <= k < |row| ==> row[k] in text
  }

  /** The last cell written holds the last character, and nothing merges with it. */
  lemma LastCell(m: Metrics, cells: Row, row: string, text: string, c: char)
    requires Plain(m, text) && Padded(m, cells, row) && c in text && AllIn(row, text)
    requires 2 <= |cells|
    ensures !Joins(m, cells, T.WidthOf(Size(m), row), c)
  {
    var used := T.WidthOf(Size(m), row);
    if 0 < used {
      var last := row[|row| - 1];
      var w := m.width([last]);
      var i :| 0 <= i < |text| && text[i] == c;
      var j :| 0 <= j < |text| && text[j] == last;
      assert PlainChar(m, text, i) && PlainChar(m, text, j);
      var front := Cells(m, row[..|row| - 1]);
      assert Cells(m, row) == front + ([[last]] + BlankRow(w - 1, ""));
      assert cells[|front|] == cells[..used][|front|] == [last];
      assert forall k :: |front| < k < used ==> cells[k] == cells[..used][k] == "";
      assert Before(cells, used) == |front|;
    }
  }

  /** Placing a character after a padded row pads the longer row. */
  lemma PlacedPadded(m: Metrics, cells: Row, row: string, c: char)
    requires Padded(m, cells, row) && 1 <= m.width([c]) && T.WidthOf(Size(m), row) + m.width([c]) <= |cells|
    ensures Padded(m, Placed(cells, T.WidthOf(Size(m), row), [c], m.width([c])), row + [c])
  {
    var used, w := T.WidthOf(Size(m), row), m.width([c]);
    var r := Placed(cells, used, [c], w);
    assert (row + [c])[..|row|] == row;
    assert Cells(m, row + [c]) == Cells(m, row) + ([[c]] + BlankRow(w - 1, ""));
    assert r[..used] == cells[..used];
    assert r[..used + w] == r[..used] + ([[c]] + BlankRow(w - 1, ""));
  }

  lemma AdvanceTracks(m: Metrics, l: Log, rows: seq<string>)
    requires Tracks(m, l, rows)
    ensures Tracks(m, Advance(l.(x := 0)), rows + [""])
  {
    var r := Advance(l.(x := 0));
    assert Cells(m, "") == [];
    assert Blank(r.lines[|rows|]);
  }

  /** Writing on the last row only. */
  lemma PutOnLastRow(m: Metrics, l: Log, rows: seq<string>, c: char, inks: Row)
    requires Tracks(m, l, rows) && 1 <= m.width([c]) && l.x + m.width([c]) <= l.cols && |inks| == l.cols
    ensures var last := |rows| - 1;
            Tracks(m, WithLine(l, Placed(l.lines[l.row], l.x, [c], m.width([c])), inks, l.x + m.width([c])),
                   rows[last := rows[last] + [c]])
  {
    var last := |rows| - 1;
    PlacedPadded(m, l.lines[l.row], rows[last], c);
    assert (rows[last] + [c])[..|rows[last]|] == rows[last];
  }

  /** Rows after one more character. */
  function Grow(m: Metrics, cols: nat, rows: seq<string>, c: char): seq<string>
    requires rows != []
  {
    var last := |rows| - 1;
    if T.WidthOf(Size(m), rows[last]) + m.width([c]) > cols then rows + [[c]] else rows[last := rows[last] + [c]]
  }

  lemma WidthOfOne(m: Metrics, row: string, c: char)
    ensures T.WidthOf(Size(m), "") == 0 && T.WidthOf(Size(m), row + [c]) == T.WidthOf(Size(m), row) + m.width([c])
  {
    assert (row + [c])[..|row|] == row;
  }

  lemma PrintableIsPrinted(m: Metrics, l: Log, c: char)
    requires LogShaped(l) && Printable(c)
    ensures LogStep(m, l, Single(c)) == LogPrint(m, l, c)
  {
    hide LogPrint, LogShaped;
  }

  /** A character with cells of its own that merges with nothing. */
  lemma PrintApart(m: Metrics, l: Log, c: char)
    requires LogShaped(l) && Printable(c) && 1 <= m.width([c]) && !Joins(m, l.lines[l.row], l.x, c)
    ensures var line := if l.x + m.width([c]) > l.cols then Advance(l.(x := 0)) else l;
            && LogShaped(line) && line.x + m.width([c]) <= l.cols && |line.inks[line.row]| == l.cols == |line.lines[line.row]|
            && LogStep(m, l, Single(c)) == WithLine(line, Placed(line.lines[line.row], line.x, [c], m.width([c])),
                 line.inks[line.row][line.x := line.style], line.x + m.width([c]))
  {
    hide RowsShaped, Placed, Before, LogStep, WithLine;
    PrintableIsPrinted(m, l, c);
    CursorLine(l);
    var line := if l.x + m.width([c]) > l.cols then Advance(l.(x := 0)) else l;
    CursorLine(line);
  }

  lemma PlainCell(m: Metrics, text: string, c: char)
    requires Plain(m, text) && c in text
    ensures Printable(c) && 1 <= m.width([c])
  {
    var i :| 0 <= i < |text| && text[i] == c;
    assert PlainChar(m, text, i);
  }

  /** The row being written. */
  lemma TracksRow(m: Metrics, l: Log, rows: seq<string>)
    requires Tracks(m, l, rows)
    ensures LogShaped(l) && LogShaped(l.(x := 0)) && 2 <= l.cols && rows != [] && l.row < |l.lines| == |l.inks|
    ensures |l.lines[l.row]| == |l.inks[l.row]| == l.cols
    ensures l.x == T.WidthOf(Size(m), rows[|rows| - 1]) && Padded(m, l.lines[l.row], rows[|rows| - 1])
  {
    hide Padded;
    CursorLine(l);
  }

  /** One character: the receiver grows the rows as the wrapper does. */
  lemma CharTracks(m: Metrics, l: Log, rows: seq<string>, c: char, text: string)
    requires Tracks(m, l, rows) && Plain(m, text) && c in text
    requires rows != [] && AllIn(rows[|rows| - 1], text)
    ensures Tracks(m, LogStep(m, l, Single(c)), Grow(m, l.cols, rows, c))
  {
    hide Tracks, Plain, AllIn, Padded, LogShaped, Joins, Placed, Cells, LogStep, WithLine, Printable, RowsShaped;
    PlainCell(m, text, c);
    TracksRow(m, l, rows);
    LastCell(m, l.lines[l.row], rows[|rows| - 1], text, c);
    PrintApart(m, l, c);
    if l.x + m.width([c]) > l.cols {
      AdvanceTracks(m, l, rows);
      var line := Advance(l.(x := 0));
      TracksRow(m, line, rows + [""]);
      PutOnLastRow(m, line, rows + [""], c, line.inks[line.row][line.x := line.style]);
      assert "" + [c] == [c];
      assert (rows + [""])[|rows| := [c]] == rows + [[c]];
    } else {
      PutOnLastRow(m, l, rows, c, l.inks[l.row][l.x := l.style]);
    }
  }

  lemma GrowIsPutCell(m: Metrics, cols: nat, before: seq<string>, w: T.Wrapper, c: char)
    requires w.columns == T.WidthOf(Size(m), w.row)
    ensures var r := T.PutCell(Size(m), cols, w, c);
            Grow(m, cols, before + T.Done(w), c) == before + T.Done(r) && r.columns == T.WidthOf(Size(m), r.row)
  {
    var rows, r := before + T.Done(w), T.PutCell(Size(m), cols, w, c);
    assert rows[|rows| - 1] == w.row;
    WidthOfOne(m, "", c);
    assert "" + [c] == [c];
    WidthOfOne(m, w.row, c);
    if w.columns + m.width([c]) > cols {
      assert rows + [[c]] == before + T.Done(r);
    } else {
      assert rows[|rows| - 1 := w.row + [c]] == before + T.Done(r);
    }
  }

  /** A whole line fed to the receiver. */
  lemma {:induction false} LineTracks(m: Metrics, l: Log, before: seq<string>, w: T.Wrapper, line: string, text: string, rest: string)
    returns (r: Log)
    requires Tracks(m, l, before + T.Done(w)) && w.columns == T.WidthOf(Size(m), w.row)
    requires Plain(m, text) && AllIn(line, text) && AllIn(w.row, text)
    ensures Tracks(m, r, before + T.Done(T.Fill(Size(m), l.cols, w, line))) && r.cols == l.cols && r.rows == l.rows
    ensures LogDrain(m, l, line + rest) == LogDrain(m, r, rest)
    decreases |line|
  {
    hide Tracks, Plain, T.PutCell, Grow, LogDrain, LogStep;
    TracksIsShaped(m, l, before + T.Done(w));
    if line == "" {
      assert line + rest == rest;
      r := l;
    } else {
      var c := line[0];
      assert line[0] in text;
      NotEscape(m, text, c);
      LogCharFed(m, l, c, line[1..] + rest);
      assert line + rest == [c] + (line[1..] + rest);
      assert (before + T.Done(w))[|before + T.Done(w)| - 1] == w.row;
      CharTracks(m, l, before + T.Done(w), c, text);
      GrowIsPutCell(m, l.cols, before, w, c);
      PutCellFrom(m, l.cols, w, c, text);
      SizeKept(m, l, c);
      r := LineTracks(m, LogStep(m, l, Single(c)), before, T.PutCell(Size(m), l.cols, w, c), line[1..], text, rest);
    }
  }

  lemma TracksIsShaped(m: Metrics, l: Log, rows: seq<string>)
    requires Tracks(m, l, rows)
    ensures LogShaped(l)
  {
  }

  lemma NotEscape(m: Metrics, text: string, c: char)
    requires Plain(m, text) && c in text
    ensures c != ESC
  {
    var i :| 0 <= i < |text| && text[i] == c;
    assert PlainChar(m, text, i);
  }

  lemma PutCellFrom(m: Metrics, cols: nat, w: T.Wrapper, c: char, text: string)
    requires c in text && AllIn(w.row, text)
    ensures AllIn(T.PutCell(Size(m), cols, w, c).row, text)
  {
  }

  lemma SizeKept(m: Metrics, l: Log, c: char)
    requires LogShaped(l)
    ensures LogStep(m, l, Single(c)).cols == l.cols && LogStep(m, l, Single(c)).rows == l.rows
  {
    hide RowsShaped, PrintOn;
  }

  lemma LogCharFed(m: Metrics, l: Log, c: char, rest: string)
    requires LogShaped(l) && c != ESC
    ensures LogDrain(m, l, [c] + rest) == LogDrain(m, LogStep(m, l, Single(c)), rest)
  {
    hide LogStep, LogShaped;
    assert ([c] + rest)[1..] == rest;
  }

  /** CR LF starts the next line on a row of its own. */
  lemma BreakTracks(m: Metrics, l: Log, rows: seq<string>, rest: string) returns (r: Log)
    requires Tracks(m, l, rows)
    ensures Tracks(m, r, rows + [""]) && r.cols == l.cols && r.rows == l.rows
    ensures LogDrain(m, l, "\r\n" + rest) == LogDrain(m, r, rest)
  {
    hide LogDrain, Padded, Blank, RowsShaped, Cells;
    var home := l.(x := 0);
    LogCharFed(m, l, '\r', "\n" + rest);
    LogCharFed(m, home, '\n', rest);
    assert "\r\n" + rest == ['\r'] + ("\n" + rest);
    AdvanceTracks(m, l, rows);
    r := Advance(home);
  }

  /** The rows of a line without tabs. */
  lemma RowsOfLine(m: Metrics, cols: nat, line: string)
    requires '\t' !in line
    ensures T.LineRows(Size(m), cols, line) == T.Done(T.Fill(Size(m), cols, T.START, line))
    ensures T.Done(T.START) == [""] && T.WidthOf(Size(m), "") == 0
  {
    hide T.Fill, T.Expanded;
    T.ExpandedIsTabsExpanded(Size(m), cols, T.START, line);
  }

  lemma RowsOfLines(m: Metrics, cols: nat, before: seq<string>, lines: seq<string>)
    requires lines != []
    ensures before + T.AllRows(Size(m), cols, lines)
         == before + T.LineRows(Size(m), cols, lines[0]) + T.AllRows(Size(m), cols, lines[1..])
    ensures T.AllRows(Size(m), cols, []) == []
    ensures Join(lines, "\r\n") == lines[0] + (if |lines| == 1 then "" else "\r\n" + Join(lines[1..], "\r\n"))
  {
    hide T.LineRows;
  }

  lemma {:induction false} LinesTrack(m: Metrics, l: Log, before: seq<string>, lines: seq<string>, text: string)
    requires lines != [] && Tracks(m, l, before + [""]) && Plain(m, text)
    requires forall i :: 0 <= i < |lines| ==> '\t' !in lines[i] && AllIn(lines[i], text)
    ensures Tracks(m, LogDrain(m, l, Join(lines, "\r\n")), before + T.AllRows(Size(m), l.cols, lines))
    decreases |lines|
  {
    hide Tracks, Plain, LogDrain, T.Fill, T.LineRows, T.AllRows, T.WidthOf, LogShaped, Join;
    TracksIsShaped(m, l, before + [""]);
    var line, cols := lines[0], l.cols;
    RowsOfLine(m, cols, line);
    RowsOfLines(m, cols, before, lines);
    var rows := T.LineRows(Size(m), cols, line);
    if |lines| == 1 {
      assert lines[1..] == [] && before + rows + [] == before + rows;
      var r := LineTracks(m, l, before, T.START, line, text, "");
      TracksIsShaped(m, r, before + rows);
      LogDrainNothing(m, r);
    } else {
      var rest := Join(lines[1..], "\r\n");
      var r := LineTracks(m, l, before, T.START, line, text, "\r\n" + rest);
      var next := BreakTracks(m, r, before + rows, rest);
      LinesTrack(m, next, before + rows, lines[1..], text);
    }
  }

  lemma LogDrainNothing(m: Metrics, l: Log)
    requires LogShaped(l)
    ensures LogDrain(m, l, "") == l
  {
  }

  /** The screen of a log that tracks rows shows the last of them. */
  predicate ShowsLast(m: Metrics, s: Screen, wrapped: seq<string>)
    requires Shaped(s)
  {
    var skipped := Max(0, |wrapped| - s.rows);
    && (forall k :: 0 <= k < s.rows && skipped + k < |wrapped| ==> Padded(m, s.grid[k], wrapped[skipped + k]))
    && (forall k :: 0 <= k < s.rows && skipped + k >= |wrapped| ==> Blank(s.grid[k]))
  }

  lemma WindowShowsLast(m: Metrics, l: Log, wrapped: seq<string>)
    requires Tracks(m, l, wrapped)
    ensures ShowsLast(m, Window(l), wrapped)
  {
    hide Padded, Blank;
    assert Top(l) == Max(0, |wrapped| - l.rows);
  }

  /** Tab-free text of plain characters, fed line by line to an empty receiver as wide as the wrapper's rows: the screen shows
      the wrapper's rows padded with blanks, the last `rows` of them if there are more than fit, and blank rows below. */
  lemma WrappersAgree(m: Metrics, cols: nat, rows: nat, output: string)
    requires 2 <= cols && 1 <= rows && '\t' !in output
    requires Plain(m, Concat(T.Lines(output)))
    ensures ShowsLast(m, Drain(m, Fresh(cols, rows), Join(T.Lines(output), "\r\n")).screen, T.AllRows(Size(m), cols, T.Lines(output)))
  {
    hide Drain, LogDrain, Plain, Tracks, ShowsLast, T.AllRows, Window, T.Lines;
    var lines, empty := T.Lines(output), EmptyLog(cols, rows);
    var wrapped := T.AllRows(Size(m), cols, lines);
    EmptyTracks(m, cols, rows);
    assert [] + [""] == [""] && [] + wrapped == wrapped;
    TabFreeLines(output);
    LinesTrack(m, empty, [], lines, Concat(lines));
    FreshScreenIsWindowOfLog(m, cols, rows, Join(lines, "\r\n"));
    WindowShowsLast(m, LogDrain(m, empty, Join(lines, "\r\n")), wrapped);
  }

  lemma EmptyTracks(m: Metrics, cols: nat, rows: nat)
    requires 2 <= cols && 1 <= rows
    ensures Tracks(m, EmptyLog(cols, rows), [""])
  {
    assert Cells(m, "") == [];
  }

  lemma {:induction false} TrimEndIsPrefix(s: string)
    ensures T.TrimEnd(s) <= s
  {
    if s != "" && T.Whitespace(s[|s| - 1]) { TrimEndIsPrefix(s[..|s| - 1]); }
  }

  lemma {:induction false} PartsOfConcat(parts: seq<string>, i: nat, k: nat)
    requires i < |parts| && k < |parts[i]|
    ensures parts[i][k] in Concat(parts)
  {
    if i > 0 { PartsOfConcat(parts[1..], i - 1, k); }
  }

  lemma {:induction false} PartsOfJoin(parts: seq<string>, sep: string, i: nat, k: nat)
    requires i < |parts| && k < |parts[i]|
    ensures parts[i][k] in Join(parts, sep)
  {
    if i > 0 { PartsOfJoin(parts[1..], sep, i - 1, k); }
  }

  lemma TabFreeLines(output: string)
    requires '\t' !in output
    ensures forall i :: 0 <= i < |T.Lines(output)| ==>
              '\t' !in T.Lines(output)[i] && AllIn(T.Lines(output)[i], Concat(T.Lines(output)))
  {
    var lines := T.Lines(output);
    TrimEndIsPrefix(output);
    forall i | 0 <= i < |lines|
      ensures '\t' !in lines[i] && AllIn(lines[i], Concat(lines))
    {
      forall k | 0 <= k < |lines[i]| ensures lines[i][k] != '\t' && lines[i][k] in Concat(lines) {
        PartsOfJoin(lines, "\n", i, k);
        PartsOfConcat(lines, i, k);
      }
    }
  }
}
