/** Which input leaves a screen whose cells can be typed again: exactly the aligned input that appends characters without width to
    narrow glyphs only. Other aligned input still leaves cells that grew one character at a time. */
module Typing {
  import opened Numbers
  import opened Terminal
  import opened Tiling
  import opened Snapshot

  /** The cell at `k` was composed where its first character fits. */
  predicate CellTyped(m: Metrics, row: Row, k: nat)
    requires k < |row|
  {
    row[k] != "" ==> Composed(m, row[k]) && k + m.width(row[k][..1]) <= |row|
  }

  predicate RowTyped(m: Metrics, row: Row) {
    forall k :: 0 <= k < |row| ==> CellTyped(m, row, k)
  }

  predicate AllTyped(m: Metrics, s: Screen) {
    forall k :: 0 <= k < |s.grid| ==> RowTyped(m, s.grid[k])
  }

  /** No glyph would join the one on its left. */
  predicate NeighboursApart(m: Metrics, row: Row) {
    forall k :: 0 < k < |row| && row[k] != "" ==> !JoinsAfter(m, row[Lead(row, k - 1)], row[k][0])
  }

  predicate AllApart(m: Metrics, s: Screen) {
    forall k :: 0 <= k < |s.grid| ==> NeighboursApart(m, s.grid[k])
  }

  /** A character without width that is appended lands on a narrow glyph. */
  predicate AppendsToNarrow(m: Metrics, cells: Row, x: nat, c: char)
    requires 0 < |cells|
  {
    !Joins(m, cells, x, c) && m.width([c]) == 0 && x > 0 ==> m.width(cells[Min(x - 1, |cells| - 1)]) == 1
  }

  predicate Typed(m: Metrics, s: Screen, token: Token)
    requires Shaped(s)
  {
    Aligned(m, s, token) && (token.Single? && Printable(token.c) ==> AppendsToNarrow(m, s.grid[s.y], s.x, token.c))
  }

  predicate TypedRun(m: Metrics, s: Screen, p: string)
    requires Shaped(s)
    decreases |p|
  {
    p != [] && Next(p).Lexeme? ==>
      Typed(m, s, Next(p).token) && TypedRun(m, Step(m, s, Next(p).token), p[Next(p).size..])
  }

  lemma BlankTyped(m: Metrics)
    requires Measures(m)
    ensures Composed(m, " ") && " "[..1] == " " && m.width(" ") == 1
  {
    assert " "[..1] == " ";
  }

  lemma BlankRowTyped(m: Metrics, cols: nat)
    requires Measures(m)
    ensures RowTyped(m, BlankRow(cols, " "))
  {
    BlankTyped(m);
    hide Composed;
  }

  lemma ComposedMore(m: Metrics, g: string, c: char)
    requires Composed(m, g) && GrowsAt(m, g + [c], |g|)
    ensures Composed(m, g + [c]) && (g + [c])[..1] == g[..1]
  {
    var h := g + [c];
    assert h[..1] == g[..1];
    forall i | 1 <= i < |h| ensures GrowsAt(m, h, i) {
      if i < |g| { assert GrowsAt(m, g, i) && h[..i] == g[..i] && h[..i + 1] == g[..i + 1]; }
    }
  }

  lemma PlacedTyped(m: Metrics, row: Row, p: nat, glyph: string, width: nat)
    requires RowTyped(m, row) && p < |row| && Composed(m, glyph) && p + m.width(glyph[..1]) <= |row|
    ensures RowTyped(m, Placed(row, p, glyph, width))
  {
    hide Composed;
    var r := Placed(row, p, glyph, width);
    forall k | 0 <= k < |r| ensures CellTyped(m, r, k) {
      assert CellTyped(m, row, k);
    }
  }

  lemma FilledTyped(m: Metrics, row: Row, start: nat, end: nat)
    requires Measures(m) && RowTyped(m, row)
    ensures RowTyped(m, Filled(row, " ", start, end))
  {
    BlankTyped(m);
    hide Composed;
    var r := Filled(row, " ", start, end);
    forall k | 0 <= k < |r| ensures CellTyped(m, r, k) {
      assert CellTyped(m, row, k);
    }
  }

  lemma JoinedTyped(m: Metrics, pen: Pen, c: char)
    requires PenShaped(pen) && RowTyped(m, pen.cells) && Joins(m, pen.cells, pen.x, c) && PrintAligned(m, pen.cells, pen.x, c)
    ensures RowTyped(m, PrintOn(m, pen, "", c).cells)
  {
    var at := Before(pen.cells, pen.x);
    var g := pen.cells[at];
    assert CellTyped(m, pen.cells, at);
    assert (g + [c])[..|g|] == g && (g + [c])[..|g| + 1] == g + [c];
    ComposedMore(m, g, c);
    PlacedTyped(m, pen.cells, at, g + [c], m.width(g + [c]));
  }

  lemma AppendedTyped(m: Metrics, pen: Pen, c: char)
    requires PenShaped(pen) && RowTyped(m, pen.cells) && !Joins(m, pen.cells, pen.x, c) && m.width([c]) == 0 && pen.x > 0
    requires Printable(c) && PrintAligned(m, pen.cells, pen.x, c)
    ensures RowTyped(m, PrintOn(m, pen, "", c).cells) <==> AppendsToNarrow(m, pen.cells, pen.x, c)
  {
    var at := Min(pen.x - 1, |pen.cells| - 1);
    var g := pen.cells[at];
    assert CellTyped(m, pen.cells, at) && Before(pen.cells, pen.x) == at;
    assert (g + [c])[..|g|] == g && (g + [c])[..|g| + 1] == g + [c];
    var r := PrintOn(m, pen, "", c).cells;
    if AppendsToNarrow(m, pen.cells, pen.x, c) {
      ComposedMore(m, g, c);
      hide Composed;
      forall k | 0 <= k < |r| ensures CellTyped(m, r, k) {
        assert CellTyped(m, pen.cells, k);
      }
    } else {
      assert r[at] == g + [c] && !GrowsAt(m, g + [c], |g|) && !CellTyped(m, r, at);
    }
  }

  lemma PutTyped(m: Metrics, pen: Pen, c: char)
    requires PenShaped(pen) && RowTyped(m, pen.cells) && !Joins(m, pen.cells, pen.x, c) && m.width([c]) > 0
    requires Printable(c) && pen.x + m.width([c]) <= |pen.cells|
    ensures RowTyped(m, PrintOn(m, pen, "", c).cells)
  {
    assert [c][..1] == [c];
    PlacedTyped(m, pen.cells, pen.x, [c], m.width([c]));
  }

  lemma InkDoesNotMatter(m: Metrics, pen: Pen, style: string, c: char)
    requires PenShaped(pen) && !Wraps(m, pen.cells, pen.x, c)
    ensures PrintOn(m, pen, style, c).cells == PrintOn(m, pen, "", c).cells
  {
  }

  lemma PrintOnTyped(m: Metrics, pen: Pen, style: string, c: char)
    requires PenShaped(pen) && RowTyped(m, pen.cells) && Printable(c) && !Wraps(m, pen.cells, pen.x, c)
    requires PrintAligned(m, pen.cells, pen.x, c)
    ensures RowTyped(m, PrintOn(m, pen, style, c).cells) <==> AppendsToNarrow(m, pen.cells, pen.x, c)
  {
    InkDoesNotMatter(m, pen, style, c);
    if Joins(m, pen.cells, pen.x, c) {
      JoinedTyped(m, pen, c);
    } else if m.width([c]) == 0 {
      if pen.x > 0 { AppendedTyped(m, pen, c); }
    } else {
      PutTyped(m, pen, c);
    }
  }

  lemma RowTypedDecides(m: Metrics, s: Screen, cells: Row, inks: Row, x: nat)
    requires Shaped(s) && AllTyped(m, s) && |cells| == |inks| == s.cols && x <= s.cols + 1
    ensures AllTyped(m, WithRow(s, cells, inks, x)) <==> RowTyped(m, cells)
  {
    hide RowTyped;
    assert WithRow(s, cells, inks, x).grid[s.y] == cells;
  }

  lemma NewLineTyped(m: Metrics, s: Screen)
    requires Measures(m) && Shaped(s) && AllTyped(m, s)
    ensures AllTyped(m, NewLine(s))
  {
    BlankRowTyped(m, s.cols);
    hide RowTyped;
  }

  lemma ClearedTyped(m: Metrics, s: Screen)
    requires Measures(m)
    ensures AllTyped(m, Cleared(s))
  {
    BlankRowTyped(m, s.cols);
    hide RowTyped;
  }

  lemma PrintTyped(m: Metrics, s: Screen, c: char)
    requires Measures(m) && Shaped(s) && AllTyped(m, s) && Printable(c) && Aligned(m, s, Single(c))
    ensures AllTyped(m, Print(m, s, c)) <==> AppendsToNarrow(m, s.grid[s.y], s.x, c)
  {
    hide RowsShaped, PrintOn, PrintAligned, NewLine, Before, RowTyped;
    CursorRow(s);
    var line := if Wraps(m, s.grid[s.y], s.x, c) then NewLine(s.(x := 0)) else s;
    NewLineTyped(m, s.(x := 0));
    CursorRow(line);
    PrintOnTyped(m, PenOf(line), line.style, c);
    var pen := PrintOn(m, PenOf(line), line.style, c);
    RowTypedDecides(m, line, pen.cells, pen.inks, pen.x);
  }

  lemma AlignedStepTyped(m: Metrics, s: Screen, token: Token)
    requires Measures(m) && Shaped(s) && AllTyped(m, s) && Aligned(m, s, token)
    ensures AllTyped(m, Step(m, s, token)) <==> Typed(m, s, token)
  {
    hide RowTyped, Interpret, RowsShaped, Print, NewLine;
    match token
    case Control(body, final) =>
      var action := Interpret(body, final);
      ClearedTyped(m, s);
      if action.EraseLine? {
        CursorRow(s);
        var start, end := EraseStart(action.mode, s.x, s.cols), EraseEnd(action.mode, s.x, s.cols);
        FilledTyped(m, s.grid[s.y], start, end);
        RowTypedDecides(m, s, Filled(s.grid[s.y], " ", start, end), Filled(s.styles[s.y], s.style, start, end), s.x);
      }
    case Single(c) =>
      if Printable(c) { PrintTyped(m, s, c); }
      NewLineTyped(m, s);
    case _ =>
  }

  /** Exactly the typed tokens keep a screen of tiled rows and composed cells one. */
  lemma StepTyped(m: Metrics, s: Screen, token: Token)
    requires Measures(m) && Shaped(s) && AllTiled(m, s) && AllTyped(m, s)
    ensures AllTiled(m, Step(m, s, token)) && AllTyped(m, Step(m, s, token)) <==> Typed(m, s, token)
  {
    hide Step, AllTiled, AllTyped, Aligned;
    StepTiled(m, s, token);
    if Aligned(m, s, token) { AlignedStepTyped(m, s, token); }
  }

  /** After every token of a stream the rows are tiled and the cells composed as typed. */
  predicate ComposedRun(m: Metrics, s: Screen, p: string)
    requires Shaped(s)
    decreases |p|
  {
    p != [] && Next(p).Lexeme? ==>
      var next := Step(m, s, Next(p).token);
      AllTiled(m, next) && AllTyped(m, next) && ComposedRun(m, next, p[Next(p).size..])
  }

  /** Exactly typed input keeps every row tiled and every cell composed, all along. */
  lemma {:induction false} RunTyped(m: Metrics, s: Screen, p: string)
    requires Measures(m) && Shaped(s) && AllTiled(m, s) && AllTyped(m, s)
    ensures ComposedRun(m, s, p) <==> TypedRun(m, s, p)
    ensures TypedRun(m, s, p) ==> AllTiled(m, Drain(m, s, p).screen) && AllTyped(m, Drain(m, s, p).screen)
    decreases |p|
  {
    hide Step, Next, AllTiled, AllTyped, Typed;
    DrainOne(m, s, p);
    if p != [] && Next(p).Lexeme? {
      StepTyped(m, s, Next(p).token);
      if Typed(m, s, Next(p).token) { RunTyped(m, Step(m, s, Next(p).token), p[Next(p).size..]); }
    }
  }

  // ---------------------------------------------------------------------------
  // What aligned input composes

  /** A cell text that aligned input composed at column `k`: every character after the first joins what was there, or has no
      width and keeps its width; and it was on the screen all the way. */
  predicate GrownAt(m: Metrics, row: Row, k: nat)
    requires k < |row|
  {
    row[k] != "" ==> GlyphGrown(m, row[k], |row| - k)
  }

  predicate GlyphGrown(m: Metrics, g: string, room: int) {
    g != "" && Printable(g[0]) && forall i :: 1 <= i <= |g| ==> PrefixGrown(m, g, i, room)
  }

  predicate PrefixGrown(m: Metrics, g: string, i: nat, room: int)
    requires 1 <= i <= |g|
  {
    && 1 <= m.width(g[..i]) <= room
    && (i < |g| && !JoinsAfter(m, g[..i], g[i]) ==> Printable(g[i]) && m.width([g[i]]) == 0 && m.width(g[..i + 1]) == m.width(g[..i]))
  }

  predicate Grown(m: Metrics, row: Row) {
    forall k :: 0 <= k < |row| ==> GrownAt(m, row, k)
  }

  predicate AllGrown(m: Metrics, s: Screen) {
    forall k :: 0 <= k < |s.grid| ==> Grown(m, s.grid[k])
  }

  /** A single character grows anywhere it fits. */
  lemma OneGrown(m: Metrics, c: char, room: int)
    requires Printable(c) && 1 <= m.width([c]) <= room
    ensures GlyphGrown(m, [c], room)
  {
    assert [c][..1] == [c];
  }

  lemma GrownMore(m: Metrics, g: string, c: char, room: int)
    requires GlyphGrown(m, g, room) && 1 <= m.width(g + [c]) <= room
    requires JoinsAfter(m, g, c) || (Printable(c) && m.width([c]) == 0 && m.width(g + [c]) == m.width(g))
    ensures GlyphGrown(m, g + [c], room)
  {
    var h := g + [c];
    assert h[..|g|] == g && h[..|h|] == h;
    forall i | 1 <= i <= |h| ensures PrefixGrown(m, h, i, room) {
      if i <= |g| { assert PrefixGrown(m, g, i, room) && h[..i] == g[..i]; }
      if i < |g| { assert h[..i + 1] == g[..i + 1]; }
    }
  }

  lemma BlankRowGrown(m: Metrics, cols: nat)
    requires Measures(m)
    ensures Grown(m, BlankRow(cols, " "))
  {
    hide GlyphGrown;
    forall k | 0 <= k < cols ensures GrownAt(m, BlankRow(cols, " "), k) { OneGrown(m, ' ', cols - k); }
  }

  /** Cells that were there, cells emptied, and one cell that grew. */
  lemma ChangedGrown(m: Metrics, row: Row, r: Row, at: nat)
    requires Grown(m, row) && |r| == |row| && at < |row| && GrownAt(m, r, at)
    requires forall k :: 0 <= k < |row| && k != at ==> r[k] == row[k] || r[k] == ""
    ensures Grown(m, r)
  {
    hide GlyphGrown;
    forall k | 0 <= k < |r| ensures GrownAt(m, r, k) { assert GrownAt(m, row, k); }
  }

  lemma FilledGrown(m: Metrics, row: Row, start: nat, end: nat)
    requires Measures(m) && Grown(m, row)
    ensures Grown(m, Filled(row, " ", start, end))
  {
    hide GlyphGrown;
    var r := Filled(row, " ", start, end);
    forall k | 0 <= k < |r| ensures GrownAt(m, r, k) {
      OneGrown(m, ' ', |row| - k);
      assert GrownAt(m, row, k);
    }
  }

  lemma PrintOnGrown(m: Metrics, pen: Pen, style: string, c: char)
    requires PenShaped(pen) && Grown(m, pen.cells) && Printable(c) && !Wraps(m, pen.cells, pen.x, c)
    requires PrintAligned(m, pen.cells, pen.x, c)
    ensures Grown(m, PrintOn(m, pen, style, c).cells)
  {
    hide GlyphGrown, Grown;
    var cells, r := pen.cells, PrintOn(m, pen, style, c).cells;
    if Joins(m, cells, pen.x, c) {
      var at := Before(cells, pen.x);
      GrownCell(m, cells, at);
      GrownMore(m, cells[at], c, |cells| - at);
      ChangedGrown(m, cells, r, at);
    } else if m.width([c]) == 0 {
      if pen.x > 0 {
        var at := Min(pen.x - 1, |cells| - 1);
        GrownCell(m, cells, at);
        GrownWidth(m, cells[at], |cells| - at);
        GrownMore(m, cells[at], c, |cells| - at);
        ChangedGrown(m, cells, r, at);
      }
    } else {
      OneGrown(m, c, |cells| - pen.x);
      ChangedGrown(m, cells, r, pen.x);
    }
  }

  lemma GrownCell(m: Metrics, row: Row, k: nat)
    requires Grown(m, row) && k < |row|
    ensures GrownAt(m, row, k)
  {
  }

  lemma GrownWidth(m: Metrics, g: string, room: int)
    requires GlyphGrown(m, g, room)
    ensures 1 <= m.width(g) <= room
  {
    assert g[..|g|] == g && PrefixGrown(m, g, |g|, room);
  }

  lemma RowGrownDecides(m: Metrics, s: Screen, cells: Row, inks: Row, x: nat)
    requires Shaped(s) && AllGrown(m, s) && |cells| == |inks| == s.cols && x <= s.cols + 1 && Grown(m, cells)
    ensures AllGrown(m, WithRow(s, cells, inks, x))
  {
    hide Grown;
  }

  lemma NewLineGrown(m: Metrics, s: Screen)
    requires Measures(m) && Shaped(s) && AllGrown(m, s)
    ensures AllGrown(m, NewLine(s)) && AllGrown(m, Cleared(s))
  {
    hide Grown;
    BlankRowGrown(m, s.cols);
  }

  lemma PrintGrown(m: Metrics, s: Screen, c: char)
    requires Measures(m) && Shaped(s) && AllGrown(m, s) && Printable(c) && Aligned(m, s, Single(c))
    ensures AllGrown(m, Print(m, s, c))
  {
    hide RowsShaped, PrintOn, PrintAligned, NewLine, Before, Grown;
    CursorRow(s);
    var line := if Wraps(m, s.grid[s.y], s.x, c) then NewLine(s.(x := 0)) else s;
    NewLineGrown(m, s.(x := 0));
    CursorRow(line);
    PrintOnGrown(m, PenOf(line), line.style, c);
    var pen := PrintOn(m, PenOf(line), line.style, c);
    RowGrownDecides(m, line, pen.cells, pen.inks, pen.x);
  }

  lemma StepGrown(m: Metrics, s: Screen, token: Token)
    requires Measures(m) && Shaped(s) && AllGrown(m, s) && Aligned(m, s, token)
    ensures AllGrown(m, Step(m, s, token))
  {
    hide Grown, Interpret, RowsShaped, Print, NewLine;
    NewLineGrown(m, s);
    match token
    case Control(body, final) =>
      var action := Interpret(body, final);
      if action.EraseLine? {
        CursorRow(s);
        var start, end := EraseStart(action.mode, s.x, s.cols), EraseEnd(action.mode, s.x, s.cols);
        FilledGrown(m, s.grid[s.y], start, end);
        RowGrownDecides(m, s, Filled(s.grid[s.y], " ", start, end), Filled(s.styles[s.y], s.style, start, end), s.x);
      }
    case Single(c) =>
      if Printable(c) { PrintGrown(m, s, c); }
    case _ =>
  }

  /** Aligned input leaves cells that grew one character at a time. */
  lemma {:induction false} RunGrown(m: Metrics, s: Screen, p: string)
    requires Measures(m) && Shaped(s) && AllGrown(m, s) && AlignedRun(m, s, p)
    ensures AllGrown(m, Drain(m, s, p).screen)
    decreases |p|
  {
    hide Step, Next, AllGrown, Aligned;
    DrainOne(m, s, p);
    if p != [] && Next(p).Lexeme? {
      StepGrown(m, s, Next(p).token);
      RunGrown(m, Step(m, s, Next(p).token), p[Next(p).size..]);
    }
  }

  // ---------------------------------------------------------------------------
  // Composed cells whose neighbours are apart are legible

  lemma RowLegible(m: Metrics, row: Row)
    requires Tiled(m, row)
    ensures Legible(m, row) <==> RowTyped(m, row) && NeighboursApart(m, row)
  {
    hide Composed, GlyphAt, JoinsAfter, Lead;
    if RowTyped(m, row) && NeighboursApart(m, row) {
      forall j | 0 <= j < |row| ensures LegibleAt(m, row, j) { assert CellTyped(m, row, j); }
    }
    if Legible(m, row) {
      forall j | 0 <= j < |row| ensures CellTyped(m, row, j) { assert LegibleAt(m, row, j); }
      forall j | 0 < j < |row| && row[j] != "" ensures !JoinsAfter(m, row[Lead(row, j - 1)], row[j][0]) {
        assert LegibleAt(m, row, j);
      }
    }
  }

  lemma TypedIsLegible(m: Metrics, s: Screen)
    requires AllTiled(m, s)
    ensures AllLegible(m, s) <==> AllTyped(m, s) && AllApart(m, s)
  {
    hide Tiled, Legible, RowTyped, NeighboursApart;
    forall k | 0 <= k < |s.grid| ensures Legible(m, s.grid[k]) <==> RowTyped(m, s.grid[k]) && NeighboursApart(m, s.grid[k]) {
      RowLegible(m, s.grid[k]);
    }
  }

  lemma FreshTyped(m: Metrics, cols: nat, rows: nat)
    requires Measures(m) && 2 <= cols && 1 <= rows
    ensures var s := Fresh(cols, rows); Shaped(s) && AllTiled(m, s) && AllTyped(m, s) && AllGrown(m, s)
  {
    BlankRowTiled(m, cols);
    BlankRowTyped(m, cols);
    BlankRowGrown(m, cols);
    hide Tiled, RowTyped, Grown;
  }
}
