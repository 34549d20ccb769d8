/** When a screen stays drawable: every row a sequence of glyphs, each a lead cell and the empty cells it continues into.
    One token keeps that exactly when what it writes or erases starts and ends where a glyph does. */
module Tiling {
  import opened Numbers
  import opened Strings
  import opened Terminal

  /** What is assumed of the host's measure: a blank is one cell wide, and nothing is zero. */
  predicate Measures(m: Metrics) {
    m.width(" ") == 1 && m.width("") == 0
  }

  /** The glyph at `k`, if one starts there, covers exactly its width and the next one starts right after it. */
  predicate GlyphAt(m: Metrics, row: Row, k: nat)
    requires k < |row|
  {
    row[k] != "" ==>
      var w := m.width(row[k]);
      && 1 <= w && k + w <= |row|
      && (w == 2 ==> row[k + 1] == "")
      && (k + w < |row| ==> row[k + w] != "")
  }

  predicate Tiled(m: Metrics, row: Row) {
    0 < |row| && row[0] != "" && forall k :: 0 <= k < |row| ==> GlyphAt(m, row, k)
  }

  predicate AllTiled(m: Metrics, s: Screen) {
    forall k :: 0 <= k < |s.grid| ==> Tiled(m, s.grid[k])
  }

  /** Column `p` is between two glyphs, or at an end of the row. */
  predicate Boundary(row: Row, p: nat) {
    p == |row| || (p < |row| && row[p] != "")
  }

  function Widths(m: Metrics, row: Row): nat {
    if row == [] then 0 else m.width(row[0]) + Widths(m, row[1..])
  }

  lemma {:induction false} WidthsFromBoundary(m: Metrics, row: Row, p: nat)
    requires Measures(m) && Tiled(m, row) && Boundary(row, p)
    ensures Widths(m, row[p..]) == |row| - p
    decreases |row| - p
  {
    if p < |row| {
      assert GlyphAt(m, row, p);
      var w := m.width(row[p]);
      assert row[p..][1..] == row[p + 1..];
      if w == 2 { assert row[p + 1..][1..] == row[p + 2..]; }
      WidthsFromBoundary(m, row, p + w);
    }
  }

  /** A tiled row is as wide as the screen. */
  lemma TiledRowFillsTheScreen(m: Metrics, row: Row)
    requires Measures(m) && Tiled(m, row)
    ensures Widths(m, row) == |row|
  {
    WidthsFromBoundary(m, row, 0);
    assert row[0..] == row;
  }

  lemma BlankRowTiled(m: Metrics, cols: nat)
    requires Measures(m) && 0 < cols
    ensures Tiled(m, BlankRow(cols, " "))
  {
  }

  // ---------------------------------------------------------------------------
  // One row

  /** A glyph with room for it keeps a row tiled exactly when it starts and ends on a boundary. */
  lemma PlacedTiled(m: Metrics, row: Row, p: nat, glyph: string)
    requires Tiled(m, row) && p < |row| && glyph != ""
    ensures Tiled(m, Placed(row, p, glyph, m.width(glyph))) <==>
              1 <= m.width(glyph) && p + m.width(glyph) <= |row| && Boundary(row, p) && Boundary(row, p + m.width(glyph))
  {
    var w := m.width(glyph);
    var r := Placed(row, p, glyph, w);
    if Tiled(m, r) {
      assert GlyphAt(m, r, p);
      if row[p] == "" {
        assert GlyphAt(m, row, p - 1) && GlyphAt(m, r, p - 1);
        EmptyCellContinues(m, row, p);
      }
    }
    if 1 <= w && p + w <= |row| && Boundary(row, p) && Boundary(row, p + w) {
      forall k | 0 <= k < |r| ensures GlyphAt(m, r, k) {
        assert GlyphAt(m, row, k);
      }
    }
  }

  /** An empty cell continues the wide glyph on its left. */
  lemma EmptyCellContinues(m: Metrics, row: Row, p: nat)
    requires Tiled(m, row) && p < |row| && row[p] == ""
    ensures 0 < p && row[p - 1] != "" && m.width(row[p - 1]) == 2
  {
    assert GlyphAt(m, row, p - 1);
    if row[p - 1] == "" {
      assert GlyphAt(m, row, p - 2);
      EmptyCellContinues(m, row, p - 1);
    }
  }

  lemma FilledTiled(m: Metrics, row: Row, start: nat, end: nat)
    requires Measures(m) && Tiled(m, row) && start < end <= |row|
    ensures Tiled(m, Filled(row, " ", start, end)) <==> Boundary(row, start) && Boundary(row, end)
  {
    var r := Filled(row, " ", start, end);
    if Tiled(m, r) {
      if row[start] == "" {
        assert GlyphAt(m, r, start - 1);
        EmptyCellContinues(m, row, start);
      }
      assert GlyphAt(m, r, end - 1);
    }
    if Boundary(row, start) && Boundary(row, end) {
      forall k | 0 <= k < |r| ensures GlyphAt(m, r, k) {
        assert GlyphAt(m, row, k);
      }
    }
  }

  /** A character without width belongs to the cell before the cursor, and must not change how wide that cell is. */
  lemma AppendedTiled(m: Metrics, row: Row, p: nat, c: char)
    requires Tiled(m, row) && p < |row| && m.width([c]) == 0
    ensures Tiled(m, row[p := row[p] + [c]]) <==> row[p] != "" && m.width(row[p] + [c]) == m.width(row[p])
  {
    var r := row[p := row[p] + [c]];
    assert GlyphAt(m, row, p) && [] + [c] == [c];
    if Tiled(m, r) {
      assert GlyphAt(m, r, p);
    }
    if row[p] != "" && m.width(row[p] + [c]) == m.width(row[p]) {
      forall k | 0 <= k < |r| ensures GlyphAt(m, r, k) {
        assert GlyphAt(m, row, k);
      }
    }
  }

  // ---------------------------------------------------------------------------
  // One token

  /** What a printable character that does not wrap must meet, told from the row and the cursor before it. */
  predicate PrintAligned(m: Metrics, cells: Row, x: nat, c: char)
    requires 0 < |cells| && !Wraps(m, cells, x, c)
  {
    if Joins(m, cells, x, c) then
      var at := Before(cells, x);
      var w := m.width(cells[at] + [c]);
      1 <= w && at + w <= |cells| && Boundary(cells, at + w)
    else if m.width([c]) == 0 then
      x > 0 ==>
        var at := Min(x - 1, |cells| - 1);
        cells[at] != "" && m.width(cells[at] + [c]) == m.width(cells[at])
    else
      Boundary(cells, x) && Boundary(cells, x + m.width([c]))
  }

  predicate Aligned(m: Metrics, s: Screen, token: Token)
    requires Shaped(s)
  {
    match token
    case Control(body, final) =>
      var action := Interpret(body, final);
      action.EraseLine? ==>
        && Boundary(s.grid[s.y], EraseStart(action.mode, s.x, s.cols))
        && Boundary(s.grid[s.y], EraseEnd(action.mode, s.x, s.cols))
    case Single(c) =>
      Printable(c) && c !in {'\r', '\n', BACKSPACE} ==>
        var s' := if Wraps(m, s.grid[s.y], s.x, c) then NewLine(s.(x := 0)) else s;
        PrintAligned(m, s'.grid[s'.y], s'.x, c)
    case _ => true
  }

  lemma NewLineTiled(m: Metrics, s: Screen)
    requires Measures(m) && Shaped(s) && AllTiled(m, s)
    ensures AllTiled(m, NewLine(s))
  {
    BlankRowTiled(m, s.cols);
  }

  lemma ClearedTiled(m: Metrics, s: Screen)
    requires Measures(m) && Shaped(s)
    ensures AllTiled(m, Cleared(s))
  {
    BlankRowTiled(m, s.cols);
  }

  /** Replacing one row of a tiled screen leaves the decision to that row. */
  lemma RowDecides(m: Metrics, s: Screen, cells: Row, inks: Row, x: nat)
    requires Shaped(s) && AllTiled(m, s) && |cells| == |inks| == s.cols && x <= s.cols + 1
    ensures AllTiled(m, WithRow(s, cells, inks, x)) <==> Tiled(m, cells)
  {
    assert WithRow(s, cells, inks, x).grid[s.y] == cells;
  }

  lemma PrintOnTiled(m: Metrics, pen: Pen, style: string, c: char)
    requires PenShaped(pen) && !Wraps(m, pen.cells, pen.x, c) && Tiled(m, pen.cells)
    ensures Tiled(m, PrintOn(m, pen, style, c).cells) <==> PrintAligned(m, pen.cells, pen.x, c)
  {
    hide Tiled, Lead;
    if Joins(m, pen.cells, pen.x, c) {
      var at := Before(pen.cells, pen.x);
      PlacedTiled(m, pen.cells, at, pen.cells[at] + [c]);
    } else if m.width([c]) == 0 {
      if pen.x > 0 { AppendedTiled(m, pen.cells, Min(pen.x - 1, |pen.cells| - 1), c); }
    } else {
      PlacedTiled(m, pen.cells, pen.x, [c]);
    }
  }

  lemma PrintTiled(m: Metrics, s: Screen, c: char)
    requires Measures(m) && Shaped(s) && AllTiled(m, s) && Printable(c)
    ensures AllTiled(m, Print(m, s, c)) <==> Aligned(m, s, Single(c))
  {
    hide Tiled, RowsShaped, PrintOn, PrintAligned, NewLine, Before;
    CursorRow(s);
    var line := if Wraps(m, s.grid[s.y], s.x, c) then NewLine(s.(x := 0)) else s;
    NewLineTiled(m, s.(x := 0));
    CursorRow(line);
    var pen := PrintOn(m, PenOf(line), line.style, c);
    RowDecides(m, line, pen.cells, pen.inks, pen.x);
    PrintOnTiled(m, PenOf(line), line.style, c);
  }

  /** Exactly the aligned tokens keep a tiled screen tiled. */
  lemma StepTiled(m: Metrics, s: Screen, token: Token)
    requires Measures(m) && Shaped(s) && AllTiled(m, s)
    ensures AllTiled(m, Step(m, s, token)) <==> Aligned(m, s, token)
  {
    hide Tiled, Interpret, RowsShaped, Print, NewLine;
    match token
    case Control(body, final) =>
      var action := Interpret(body, final);
      if action.EraseLine? {
        CursorRow(s);
        var start, end := EraseStart(action.mode, s.x, s.cols), EraseEnd(action.mode, s.x, s.cols);
        var cells, inks := Filled(s.grid[s.y], " ", start, end), Filled(s.styles[s.y], s.style, start, end);
        RowDecides(m, s, cells, inks, s.x);
        FilledTiled(m, s.grid[s.y], start, end);
      } else {
        ClearedTiled(m, s);
      }
    case Single(c) =>
      if Printable(c) { PrintTiled(m, s, c); }
      NewLineTiled(m, s);
    case _ =>
  }

  /** Every token of a stream is aligned where it lands. */
  predicate AlignedRun(m: Metrics, s: Screen, p: string)
    requires Shaped(s)
    decreases |p|
  {
    p != [] && Next(p).Lexeme? ==>
      Aligned(m, s, Next(p).token) && AlignedRun(m, Step(m, s, Next(p).token), p[Next(p).size..])
  }

  /** The screen is tiled after every token of a stream. */
  predicate TiledRun(m: Metrics, s: Screen, p: string)
    requires Shaped(s)
    decreases |p|
  {
    p != [] && Next(p).Lexeme? ==>
      var next := Step(m, s, Next(p).token);
      AllTiled(m, next) && TiledRun(m, next, p[Next(p).size..])
  }

  lemma {:induction false} RunTiled(m: Metrics, s: Screen, p: string)
    requires Measures(m) && Shaped(s) && AllTiled(m, s)
    ensures TiledRun(m, s, p) <==> AlignedRun(m, s, p)
    ensures AlignedRun(m, s, p) ==> AllTiled(m, Drain(m, s, p).screen)
    decreases |p|
  {
    hide Step, Next, AllTiled, Aligned;
    DrainOne(m, s, p);
    if p != [] && Next(p).Lexeme? {
      StepTiled(m, s, Next(p).token);
      if Aligned(m, s, Next(p).token) { RunTiled(m, Step(m, s, Next(p).token), p[Next(p).size..]); }
    }
  }

  // ---------------------------------------------------------------------------
  // The printed screen

  predicate PlainCells(row: Row) {
    forall k :: 0 <= k < |row| ==> '\n' !in row[k]
  }

  predicate AllPlain(s: Screen) {
    forall k :: 0 <= k < |s.grid| ==> PlainCells(s.grid[k])
  }

  lemma PrintPlain(m: Metrics, s: Screen, c: char)
    requires Shaped(s) && AllPlain(s) && Printable(c)
    ensures AllPlain(Print(m, s, c))
  {
    hide RowsShaped, PrintOn, NewLine, Before, PlainCells;
    CursorRow(s);
    var line := if Wraps(m, s.grid[s.y], s.x, c) then NewLine(s.(x := 0)) else s;
    NewLinePlain(s.(x := 0));
    CursorRow(line);
    PrintOnPlain(m, PenOf(line), line.style, c);
  }

  lemma NewLinePlain(s: Screen)
    requires Shaped(s) && AllPlain(s)
    ensures AllPlain(NewLine(s))
  {
    assert PlainCells(BlankRow(s.cols, " "));
    hide PlainCells;
  }

  lemma PrintOnPlain(m: Metrics, pen: Pen, style: string, c: char)
    requires PenShaped(pen) && PlainCells(pen.cells) && Printable(c) && !Wraps(m, pen.cells, pen.x, c)
    ensures PlainCells(PrintOn(m, pen, style, c).cells)
  {
    hide Joins, Before;
  }

  lemma StepPlain(m: Metrics, s: Screen, token: Token)
    requires Shaped(s) && AllPlain(s)
    ensures AllPlain(Step(m, s, token))
  {
    hide Interpret, RowsShaped, Print, NewLine;
    CursorRow(s);
    NewLinePlain(s);
    if token.Single? && Printable(token.c) { PrintPlain(m, s, token.c); }
  }

  lemma {:induction false} DrainPlain(m: Metrics, s: Screen, p: string)
    requires Shaped(s) && AllPlain(s)
    ensures AllPlain(Drain(m, s, p).screen)
    decreases |p|
  {
    hide Step, Next, AllPlain;
    DrainOne(m, s, p);
    if p != [] && Next(p).Lexeme? {
      StepPlain(m, s, Next(p).token);
      DrainPlain(m, Step(m, s, Next(p).token), p[Next(p).size..]);
    }
  }

  lemma {:induction false} ConcatPlain(row: Row)
    requires PlainCells(row)
    ensures '\n' !in Concat(row)
  {
    if row != [] { ConcatPlain(row[1..]); }
  }

  lemma TextOfTiledScreen(m: Metrics, s: Screen)
    requires Measures(m) && Shaped(s) && AllTiled(m, s) && AllPlain(s)
    ensures Split(Text(s)[..|Text(s)| - 1], '\n') == TextRows(s)
    ensures forall k :: 0 <= k < s.rows ==> Widths(m, s.grid[k]) == s.cols
  {
    hide Tiled, PlainCells;
    forall k | 0 <= k < s.rows ensures '\n' !in TextRows(s)[k] && Widths(m, s.grid[k]) == s.cols {
      ConcatPlain(s.grid[k]);
      TiledRowFillsTheScreen(m, s.grid[k]);
    }
    SplitOfJoin(TextRows(s), '\n');
    assert Text(s)[..|Text(s)| - 1] == Join(TextRows(s), "\n");
  }

  lemma FreshTiled(m: Metrics, cols: nat, rows: nat)
    requires Measures(m) && 2 <= cols && 1 <= rows
    ensures AllTiled(m, Fresh(cols, rows)) && AllPlain(Fresh(cols, rows))
  {
    BlankRowTiled(m, cols);
    hide Tiled;
  }

  /** After any aligned run from an empty screen, `text()` is exactly `rows` lines, each the cells of one row, and the glyphs
      of every row add up to `cols`. */
  lemma TextIsRowsByCols(m: Metrics, cols: nat, rows: nat, p: string)
    requires Measures(m) && 2 <= cols && 1 <= rows && AlignedRun(m, Fresh(cols, rows), p)
    ensures var s := Drain(m, Fresh(cols, rows), p).screen;
            && Split(Text(s)[..|Text(s)| - 1], '\n') == TextRows(s)
            && forall k :: 0 <= k < s.rows ==> Widths(m, s.grid[k]) == s.cols
  {
    hide Drain, AlignedRun, Text, Tiled, TextRows, Widths, Shaped, Fresh, AllTiled, AllPlain, Measures, Split;
    var empty := Fresh(cols, rows);
    FreshShaped(cols, rows);
    FreshTiled(m, cols, rows);
    RunTiled(m, empty, p);
    DrainPlain(m, empty, p);
    TextOfTiledScreen(m, Drain(m, empty, p).screen);
  }
}
