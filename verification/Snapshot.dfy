/** The styled snapshot read back: feeding the rows of `ansi()` to an empty screen of the same size rebuilds every cell and
    the style of every non-empty cell. */
module Snapshot {
  import opened Numbers
  import opened Strings
  import opened Terminal
  import opened Chunking
  import opened Tiling

  // ---------------------------------------------------------------------------
  // Styles replay themselves

  /** A style is a run of SGR sequences, none of which resets. */
  predicate Replays(style: string)
    decreases |style|
  {
    style != [] ==>
      && Next(style).Lexeme? && Next(style).token.Control? && Next(style).token.final == 'm'
      && Next(style).token.body !in {"", "0"}
      && Replays(style[Next(style).size..])
  }

  lemma {:induction false} ReplaysBoth(front: string, back: string)
    requires Replays(front) && Replays(back)
    ensures Replays(front + back)
    decreases |front|
  {
    hide Next;
    if front == [] {
      assert front + back == back;
    } else {
      NextOfLongerInput(front, back);
      var size := Next(front).size;
      assert (front + back)[size..] == front[size..] + back;
      ReplaysBoth(front[size..], back);
    }
  }

  /** A control token is its own spelling, and that spelling alone reads as the same token. */
  lemma ControlSpelling(p: string)
    requires p != [] && Next(p).Lexeme? && Next(p).token.Control?
    ensures var Control(body, final) := Next(p).token;
            p[..Next(p).size] == [ESC, '['] + body + [final] && Next(p[..Next(p).size]) == Next(p)
  {
    var n := Next(p).size;
    ControlTokenIsControlSequence(p, n);
    var i :| ControlSequence(p[..n], i);
    assert p[..n][..n] == p[..n];
    ControlTokenIsControlSequence(p[..n], n);
    assert p[..n][2..n - 1] == p[2..n - 1];
  }

  lemma SgrReplays(p: string)
    requires p != [] && Next(p).Lexeme? && Next(p).token.Control? && Next(p).token.final == 'm'
    requires Next(p).token.body !in {"", "0"}
    ensures Replays(Sgr(Next(p).token.body))
  {
    ControlSpelling(p);
    var sgr := Sgr(Next(p).token.body);
    assert sgr == p[..Next(p).size];
    assert sgr[Next(p).size..] == [];
  }

  predicate StylesReplay(s: Screen) {
    Replays(s.style) && forall k, j :: 0 <= k < |s.styles| && 0 <= j < |s.styles[k]| ==> Replays(s.styles[k][j])
  }

  /** Whatever is fed, the styles on the screen stay replayable. */
  lemma StepStylesReplay(m: Metrics, s: Screen, p: string)
    requires Shaped(s) && StylesReplay(s) && p != [] && Next(p).Lexeme?
    ensures StylesReplay(Step(m, s, Next(p).token))
  {
    hide RowsShaped, Next, Joins, Before, Placed;
    CursorRow(s);
    assert Replays("");
    match Next(p).token
    case Control(body, final) =>
      hide Replays;
      var action := Interpret(body, final);
      if action.AddStyle? {
        InterpretSgr(body, final);
        SgrReplays(p);
        ReplaysBoth(s.style, Sgr(body));
      }
      StyleAction(s, action);
    case Single(c) =>
      hide Replays;
      if Printable(c) { PrintStyles(m, s, c); }
    case _ =>
  }

  lemma InterpretSgr(body: string, final: char)
    requires Interpret(body, final).AddStyle?
    ensures Interpret(body, final).body == body && final == 'm' && body !in {"", "0"}
  {
    hide Split, Number, Args;
  }

  lemma StyleAction(s: Screen, action: Action)
    requires Shaped(s) && StylesReplay(s) && Replays("") && (action.AddStyle? ==> Replays(s.style + Sgr(action.body)))
    ensures StylesReplay(Apply(s, action))
  {
    hide Replays;
  }

  lemma PrintStyles(m: Metrics, s: Screen, c: char)
    requires Shaped(s) && StylesReplay(s) && Replays("")
    ensures StylesReplay(Print(m, s, c))
  {
    hide Replays, Joins, Before;
  }

  lemma {:induction false} DrainStylesReplay(m: Metrics, s: Screen, p: string)
    requires Shaped(s) && StylesReplay(s)
    ensures StylesReplay(Drain(m, s, p).screen)
    decreases |p|
  {
    hide Step, Next, StylesReplay;
    DrainOne(m, s, p);
    if p != [] && Next(p).Lexeme? {
      StepStylesReplay(m, s, p);
      DrainStylesReplay(m, Step(m, s, Next(p).token), p[Next(p).size..]);
    }
  }

  /** Feeding a style to a screen without one sets exactly that style. */
  lemma {:induction false} StyleFed(m: Metrics, s: Screen, done: string, style: string, rest: string)
    requires Shaped(s) && Replays(style) && s.style == done
    ensures Drain(m, s, style + rest) == Drain(m, s.(style := done + style), rest)
    decreases |style|
  {
    hide Drain, Next, Apply;
    if style == [] {
      assert style + rest == rest && done + style == done;
      assert s.(style := done) == s;
    } else {
      var Lexeme(token, size) := Next(style);
      NextOfLongerInput(style, rest);
      ControlSpelling(style);
      DrainOne(m, s, style + rest);
      assert (style + rest)[size..] == style[size..] + rest;
      var next := s.(style := done + style[..size]);
      SgrApplied(m, s, token.body);
      StyleFed(m, next, done + style[..size], style[size..], rest);
      assert done + style[..size] + style[size..] == done + style;
    }
  }

  lemma SgrApplied(m: Metrics, s: Screen, body: string)
    requires Shaped(s) && body !in {"", "0"}
    ensures Step(m, s, Control(body, 'm')) == s.(style := s.style + Sgr(body))
  {
  }

  lemma ResetApplied(m: Metrics, s: Screen)
    requires Shaped(s)
    ensures Step(m, s, Control("0", 'm')) == s.(style := "")
  {
  }

  lemma ResetFed(m: Metrics, s: Screen, rest: string)
    requires Shaped(s)
    ensures Drain(m, s, Sgr("0") + rest) == Drain(m, s.(style := ""), rest)
  {
    hide Drain, Step, Next;
    assert ControlSequence(Sgr("0"), 3) && Sgr("0")[2..3] == "0";
    ControlFed(m, s, Sgr("0"), 3, rest);
    ResetApplied(m, s);
  }

  // ---------------------------------------------------------------------------
  // One glyph

  /** A cell text that can be typed: a first character with cells of its own, and characters that join it or, without width,
      are appended to it while it is narrow. */
  predicate Composed(m: Metrics, g: string) {
    && g != "" && Printable(g[0]) && 1 <= m.width(g[..1])
    && forall i :: 1 <= i < |g| ==> GrowsAt(m, g, i)
  }

  predicate GrowsAt(m: Metrics, g: string, i: nat)
    requires i < |g|
  {
    if JoinsAfter(m, g[..i], g[i]) then 1 <= m.width(g[..i + 1])
    else Printable(g[i]) && m.width([g[i]]) == 0 && m.width(g[..i]) == 1 == m.width(g[..i + 1])
  }

  predicate JoinsAfter(m: Metrics, g: string, c: char) {
    c as int > 127 && m.joins(g, c)
  }

  /** The cell at `p` holds `g`, the cells it continues into are empty, and the cursor is right after it. */
  predicate Holds(m: Metrics, s: Screen, p: nat, g: string)
    requires Shaped(s) && p < s.cols
  {
    CursorRow(s);
    && s.grid[s.y][p] == g && s.x == p + m.width(g)
    && forall k :: p < k < Min(p + m.width(g), s.cols) ==> s.grid[s.y][k] == ""
  }

  /** `r` differs from `s` in the current style, the cursor column and the cursor's row, and there only from column `p` on. */
  predicate OnlyFrom(s: Screen, r: Screen, p: nat)
    requires Shaped(s) && Shaped(r) && p <= s.cols
  {
    CursorRow(s); CursorRow(r);
    && r.(grid := s.grid, styles := s.styles, style := s.style, x := s.x) == s
    && r.grid == s.grid[s.y := r.grid[s.y]] && r.styles == s.styles[s.y := r.styles[s.y]]
    && r.grid[s.y][..p] == s.grid[s.y][..p] && r.styles[s.y][..p] == s.styles[s.y][..p]
  }

  lemma PrintableFed(m: Metrics, s: Screen, c: char, rest: string)
    requires Shaped(s) && Printable(c)
    ensures Drain(m, s, [c] + rest) == Drain(m, Print(m, s, c), rest)
  {
    hide Drain, Print, RowsShaped;
    CharFed(m, s, c, rest);
  }

  /** A character that joins the glyph before the cursor. */
  lemma JoinPrinted(m: Metrics, s: Screen, p: nat, g: string, c: char) returns (r: Screen)
    requires Shaped(s) && p < s.cols && Holds(m, s, p, g) && g != "" && 1 <= m.width(g)
    requires JoinsAfter(m, g, c) && 1 <= m.width(g + [c])
    ensures r == Print(m, s, c) && Shaped(r) && OnlyFrom(s, r, p) && Holds(m, r, p, g + [c])
    ensures r.styles == s.styles && r.cols == s.cols
  {
    hide RowsShaped;
    CursorRow(s);
    var cells := s.grid[s.y];
    assert Before(cells, s.x) == p;
    r := Print(m, s, c);
    CursorRow(r);
    assert r.styles == s.styles[s.y := s.styles[s.y]] == s.styles;
    assert r.grid[s.y] == Placed(cells, p, g + [c], m.width(g + [c]));
  }

  /** A character without width, appended to the narrow glyph before the cursor. */
  lemma AppendPrinted(m: Metrics, s: Screen, p: nat, g: string, c: char) returns (r: Screen)
    requires Shaped(s) && p < s.cols && Holds(m, s, p, g) && g != ""
    requires !JoinsAfter(m, g, c) && m.width([c]) == 0 && m.width(g) == 1 == m.width(g + [c])
    ensures r == Print(m, s, c) && Shaped(r) && OnlyFrom(s, r, p) && Holds(m, r, p, g + [c])
    ensures r.styles == s.styles && r.cols == s.cols
  {
    hide RowsShaped;
    CursorRow(s);
    assert Before(s.grid[s.y], s.x) == p;
    r := Print(m, s, c);
    CursorRow(r);
    assert r.styles == s.styles[s.y := s.styles[s.y]] == s.styles;
    assert r.grid[s.y] == s.grid[s.y][p := g + [c]];
  }

  lemma OnlyFromTwice(a: Screen, b: Screen, c: Screen, p: nat, q: nat)
    requires Shaped(a) && Shaped(b) && Shaped(c) && p <= q <= a.cols && OnlyFrom(a, b, p) && OnlyFrom(b, c, q)
    ensures OnlyFrom(a, c, p)
  {
    CursorRow(a); CursorRow(b); CursorRow(c);
    assert c.grid[a.y][..p] == c.grid[a.y][..q][..p] && b.grid[a.y][..p] == b.grid[a.y][..q][..p];
    assert c.styles[a.y][..p] == c.styles[a.y][..q][..p] && b.styles[a.y][..p] == b.styles[a.y][..q][..p];
    assert c.grid == a.grid[a.y := c.grid[a.y]] && c.styles == a.styles[a.y := c.styles[a.y]];
  }

  lemma CutAt(g: string, i: nat, rest: string)
    requires i < |g|
    ensures g[..i] + [g[i]] == g[..i + 1] && g[i..] + rest == [g[i]] + (g[i + 1..] + rest)
  {
  }

  lemma {:induction false} RestOfGlyphFed(m: Metrics, s: Screen, p: nat, g: string, i: nat, rest: string) returns (r: Screen)
    requires Shaped(s) && p < s.cols && Composed(m, g) && 1 <= i <= |g| && Holds(m, s, p, g[..i])
    ensures Shaped(r) && OnlyFrom(s, r, p) && Holds(m, r, p, g) && r.styles == s.styles
    ensures Drain(m, s, g[i..] + rest) == Drain(m, r, rest)
    decreases |g| - i
  {
    hide Print, RowsShaped, Drain, OnlyFrom, Holds;
    if i == |g| {
      assert g[i..] + rest == rest && g[..i] == g;
      r := s;
      CursorRow(s);
      SameScreen(s, p);
    } else {
      CutAt(g, i, rest);
      assert GrowsAt(m, g, i) && (1 < i ==> GrowsAt(m, g, i - 1));
      var next := GrowthPrinted(m, s, p, g, i);
      PrintableFed(m, s, g[i], g[i + 1..] + rest);
      r := RestOfGlyphFed(m, next, p, g, i + 1, rest);
      CursorRow(s);
      OnlyFromTwice(s, next, r, p, p);
    }
  }

  lemma GrowthPrinted(m: Metrics, s: Screen, p: nat, g: string, i: nat) returns (r: Screen)
    requires Shaped(s) && p < s.cols && 1 <= i < |g| && Holds(m, s, p, g[..i]) && 1 <= m.width(g[..i]) && GrowsAt(m, g, i)
    ensures r == Print(m, s, g[i]) && Shaped(r) && OnlyFrom(s, r, p) && Holds(m, r, p, g[..i + 1])
    ensures r.styles == s.styles && r.cols == s.cols && Printable(g[i])
  {
    hide Print, OnlyFrom, Holds;
    assert g[..i] + [g[i]] == g[..i + 1];
    if JoinsAfter(m, g[..i], g[i]) {
      r := JoinPrinted(m, s, p, g[..i], g[i]);
    } else {
      r := AppendPrinted(m, s, p, g[..i], g[i]);
    }
  }

  lemma SameScreen(s: Screen, p: nat)
    requires Shaped(s) && p <= s.cols
    ensures OnlyFrom(s, s, p)
  {
  }

  /** The first character of a glyph, printed where it fits. */
  lemma FirstPrinted(m: Metrics, s: Screen, c: char) returns (r: Screen)
    requires Shaped(s) && Printable(c) && 1 <= m.width([c]) && s.x + m.width([c]) <= s.cols && !Joins(m, s.grid[s.y], s.x, c)
    ensures r == Print(m, s, c) && Shaped(r) && OnlyFrom(s, r, s.x) && Holds(m, r, s.x, [c]) && r.cols == s.cols
    ensures r.styles == s.styles[s.y := s.styles[s.y][s.x := s.style]]
  {
    hide RowsShaped, Before;
    CursorRow(s);
    r := Print(m, s, c);
    CursorRow(r);
    assert r.grid[s.y] == Placed(s.grid[s.y], s.x, [c], m.width([c]));
  }

  /** A glyph fed at a column it fits in, and whose first character does not join what is before it. */
  lemma GlyphFed(m: Metrics, s: Screen, g: string, rest: string) returns (r: Screen)
    requires Shaped(s) && Composed(m, g) && s.x + m.width(g[..1]) <= s.cols && !Joins(m, s.grid[s.y], s.x, g[0])
    ensures Shaped(r) && OnlyFrom(s, r, s.x) && Holds(m, r, s.x, g)
    ensures r.styles == s.styles[s.y := s.styles[s.y][s.x := s.style]]
    ensures Drain(m, s, g + rest) == Drain(m, r, rest)
  {
    CursorRow(s);
    assert [g[0]] == g[..1] && g + rest == [g[0]] + (g[1..] + rest);
    hide RowsShaped, Drain, Joins, Print, OnlyFrom, Holds;
    var next := FirstPrinted(m, s, g[0]);
    PrintableFed(m, s, g[0], g[1..] + rest);
    r := RestOfGlyphFed(m, next, s.x, g, 1, rest);
    OnlyFromTwice(s, next, r, s.x, s.x);
  }

  // ---------------------------------------------------------------------------
  // One row

  /** The cell at `k` can be typed where it stands: it fits, and it does not join the glyph on its left. */
  predicate LegibleAt(m: Metrics, row: Row, k: nat)
    requires k < |row|
  {
    row[k] != "" ==>
      && Composed(m, row[k]) && k + m.width(row[k][..1]) <= |row|
      && (0 < k ==> !JoinsAfter(m, row[Lead(row, k - 1)], row[k][0]))
  }

  predicate Legible(m: Metrics, row: Row) {
    Tiled(m, row) && forall k :: 0 <= k < |row| ==> LegibleAt(m, row, k)
  }

  /** Two style rows agree on the non-empty cells left of column `p`. */
  predicate InksAgree(row: Row, a: Row, b: Row, p: nat)
    requires |row| == |a| == |b| && p <= |row|
  {
    forall k :: 0 <= k < p && row[k] != "" ==> a[k] == b[k]
  }

  /** The cursor's row is written up to the cursor. */
  predicate Written(s: Screen, row: Row, inks: Row, p: nat)
    requires Shaped(s) && |row| == |inks| == s.cols && p <= s.cols
  {
    CursorRow(s);
    s.x == p && s.grid[s.y][..p] == row[..p] && InksAgree(row, s.styles[s.y], inks, p)
  }

  /** One cell in the snapshot. */
  function CellText(ink: string, cell: string): string {
    Sgr("0") + ink + cell
  }

  lemma CellTextGrouped(ink: string, cell: string)
    ensures CellText(ink, cell) == Sgr("0") + (ink + (cell + ""))
  {
  }

  /** The text of a row's cells, one glyph at a time. */
  lemma InkOfGlyph(m: Metrics, row: Row, inks: Row, p: nat)
    requires |row| == |inks| && Tiled(m, row) && p < |row| && Boundary(row, p)
    ensures row[p] != "" && 1 <= m.width(row[p]) && p + m.width(row[p]) <= |row| && Boundary(row, p + m.width(row[p]))
    ensures Ink(row, inks, p) == CellText(inks[p], row[p]) + Ink(row, inks, p + m.width(row[p]))
  {
    hide Ink, Sgr;
    assert GlyphAt(m, row, p);
    InkOfCell(row, inks, p);
    if m.width(row[p]) == 2 { InkOfCell(row, inks, p + 1); }
  }

  lemma InkOfCell(row: Row, inks: Row, p: nat)
    requires |row| == |inks| && p < |row|
    ensures Ink(row, inks, p) == if row[p] == "" then Ink(row, inks, p + 1) else CellText(inks[p], row[p]) + Ink(row, inks, p + 1)
  {
  }

  lemma InkFromBoundary(m: Metrics, row: Row, inks: Row, p: nat, rest: string)
    requires |row| == |inks| && Tiled(m, row) && p < |row| && row[p] != ""
    ensures p + m.width(row[p]) <= |row| && Boundary(row, p + m.width(row[p]))
    ensures Ink(row, inks, p) + rest == Sgr("0") + (inks[p] + (row[p] + (Ink(row, inks, p + m.width(row[p])) + rest)))
  {
    hide Ink, Sgr, Tiled;
    InkOfGlyph(m, row, inks, p);
    Regroup(Sgr("0"), inks[p], row[p], Ink(row, inks, p + m.width(row[p])), rest);
  }

  lemma Regroup(a: string, b: string, c: string, d: string, e: string)
    ensures a + b + c + d + e == a + (b + (c + (d + e)))
  {
  }

  lemma LeadOfPrefix(a: Row, b: Row, p: nat)
    requires 0 < p <= |a| && p <= |b| && a[..p] == b[..p]
    ensures Lead(a, p - 1) == Lead(b, p - 1) && a[Lead(a, p - 1)] == b[Lead(b, p - 1)]
  {
    assert forall k :: 0 <= k < p ==> a[k] == a[..p][k] == b[k];
  }

  lemma GlyphWritten(m: Metrics, s: Screen, r: Screen, row: Row, inks: Row, p: nat)
    requires Shaped(s) && Shaped(r) && |row| == |inks| == s.cols && Tiled(m, row) && p < s.cols && row[p] != ""
    requires Written(s, row, inks, p) && OnlyFrom(s, r, p) && Holds(m, r, p, row[p])
    requires r.styles == s.styles[s.y := s.styles[s.y][p := inks[p]]]
    ensures p + m.width(row[p]) <= s.cols && Written(r, row, inks, p + m.width(row[p]))
  {
    hide RowsShaped;
    CursorRow(s);
    CursorRow(r);
    assert GlyphAt(m, row, p);
    var w := m.width(row[p]);
    forall k | 0 <= k < p + w ensures r.grid[s.y][k] == row[k] {
      if k < p { assert r.grid[s.y][..p][k] == s.grid[s.y][..p][k] == row[..p][k]; }
    }
    assert r.grid[s.y][..p + w] == row[..p + w];
  }

  /** The cell at the cursor does not join what the receiver has on its left. */
  lemma NextCellApart(m: Metrics, s: Screen, row: Row, inks: Row)
    requires Shaped(s) && |row| == |inks| == s.cols && s.x < s.cols && row[s.x] != "" && LegibleAt(m, row, s.x)
    requires Written(s, row, inks, s.x)
    ensures !Joins(m, s.grid[s.y], s.x, row[s.x][0])
  {
    CursorRow(s);
    if 0 < s.x { LeadOfPrefix(s.grid[s.y], row, s.x); }
  }

  /** One cell of the snapshot: its reset, its style and its text. */
  lemma CellFed(m: Metrics, s: Screen, row: Row, inks: Row, p: nat, rest: string) returns (r: Screen)
    requires Shaped(s) && |row| == |inks| == s.cols && Tiled(m, row) && p < s.cols && row[p] != "" && Replays(inks[p])
    requires LegibleAt(m, row, p) && Written(s, row, inks, p)
    ensures Shaped(r) && OnlyFrom(s, r, p) && r.cols == s.cols
    ensures p + m.width(row[p]) <= s.cols && Written(r, row, inks, p + m.width(row[p]))
    ensures Drain(m, s, Sgr("0") + (inks[p] + (row[p] + rest))) == Drain(m, r, rest)
  {
    hide RowsShaped, Drain, Composed, Replays, Holds;
    CursorRow(s);
    ResetFed(m, s, inks[p] + (row[p] + rest));
    StyleFed(m, s.(style := ""), "", inks[p], row[p] + rest);
    var styled := s.(style := inks[p]);
    assert "" + inks[p] == inks[p];
    NextCellApart(m, styled, row, inks);
    r := GlyphFed(m, styled, row[p], rest);
    GlyphWritten(m, styled, r, row, inks, p);
  }

  lemma RowEdges(m: Metrics, row: Row, inks: Row, p: nat, rest: string)
    requires |row| == |inks| && Legible(m, row) && p <= |row| && Boundary(row, p)
    ensures Tiled(m, row) && (p < |row| ==> row[p] != "" && LegibleAt(m, row, p)) && Ink(row, inks, |row|) + rest == rest
  {
    hide Tiled, LegibleAt;
    assert "" + rest == rest;
  }

  /** The text of one cell at the front of the rest of its row. */
  lemma NextCellFed(m: Metrics, s: Screen, row: Row, inks: Row, p: nat, rest: string) returns (r: Screen)
    requires Shaped(s) && |row| == |inks| == s.cols && Tiled(m, row) && p < s.cols && row[p] != "" && Replays(inks[p])
    requires LegibleAt(m, row, p) && Written(s, row, inks, p)
    ensures var q := p + m.width(row[p]);
            && q <= s.cols && Boundary(row, q) && Shaped(r) && OnlyFrom(s, r, p) && r.cols == s.cols && Written(r, row, inks, q)
            && Drain(m, s, Ink(row, inks, p) + rest) == Drain(m, r, Ink(row, inks, q) + rest)
  {
    hide Drain, Shaped, LegibleAt, Tiled, Replays, Written, OnlyFrom, Boundary, Ink, Sgr;
    InkFromBoundary(m, row, inks, p, rest);
    r := CellFed(m, s, row, inks, p, Ink(row, inks, p + m.width(row[p])) + rest);
  }

  lemma WiderThanNothing(m: Metrics, row: Row, p: nat)
    requires Tiled(m, row) && p < |row| && row[p] != ""
    ensures 1 <= m.width(row[p])
  {
    assert GlyphAt(m, row, p);
  }

  lemma {:induction false} RowFed(m: Metrics, s: Screen, row: Row, inks: Row, p: nat, rest: string) returns (r: Screen)
    requires Shaped(s) && |row| == |inks| == s.cols && Legible(m, row) && p <= s.cols && Boundary(row, p)
    requires forall k :: 0 <= k < |inks| ==> Replays(inks[k])
    requires Written(s, row, inks, p)
    ensures Shaped(r) && OnlyFrom(s, r, p) && r.cols == s.cols
    ensures Written(r, row, inks, s.cols)
    ensures Drain(m, s, Ink(row, inks, p) + rest) == Drain(m, r, rest)
    decreases |row| - p
  {
    hide Drain, Shaped, Legible, LegibleAt, Tiled, Replays, Written, OnlyFrom, Boundary, Ink;
    RowEdges(m, row, inks, p, rest);
    if p == s.cols {
      r := s;
      SameScreen(s, p);
    } else {
      var q := p + m.width(row[p]);
      WiderThanNothing(m, row, p);
      var next := NextCellFed(m, s, row, inks, p, rest);
      r := RowFed(m, next, row, inks, q, rest);
      OnlyFromTwice(s, next, r, p, q);
    }
  }

  // ---------------------------------------------------------------------------
  // The whole screen

  predicate AllLegible(m: Metrics, s: Screen) {
    forall k :: 0 <= k < |s.grid| ==> Legible(m, s.grid[k])
  }

  /** The rows of `s` above `k` show those of `t`: the same cells, and the same style on every non-empty one. */
  predicate Shows(s: Screen, t: Screen, k: nat)
    requires Shaped(s) && Shaped(t) && s.cols == t.cols && s.rows == t.rows && k <= s.rows
  {
    forall j :: 0 <= j < k ==> RowShown(s.grid[j], s.styles[j], t.grid[j], t.styles[j])
  }

  predicate RowShown(cells: Row, inks: Row, row: Row, rowInks: Row) {
    cells == row && |inks| == |rowInks| == |row| && InksAgree(row, inks, rowInks, |row|)
  }

  /** CR LF above the last row. */
  lemma LineBreakFed(m: Metrics, s: Screen, rest: string)
    requires Shaped(s) && s.y + 1 < s.rows
    ensures Drain(m, s, "\r\n" + rest) == Drain(m, s.(x := 0, y := s.y + 1), rest)
  {
    BreakChars(m, s);
    hide Drain, Shaped, Char;
    LineBreakText(rest);
    CharFed(m, s, '\r', ['\n'] + rest);
    CharFed(m, s.(x := 0), '\n', rest);
  }

  lemma LineBreakText(rest: string)
    ensures "\r\n" + rest == ['\r'] + (['\n'] + rest)
  {
  }

  lemma BreakChars(m: Metrics, s: Screen)
    requires Shaped(s) && s.y + 1 < s.rows
    ensures Shaped(s.(x := 0)) && Char(m, s, '\r') == s.(x := 0) && Char(m, s.(x := 0), '\n') == s.(x := 0, y := s.y + 1)
  {
    hide RowsShaped, Print;
  }

  lemma AnsiRowFed(m: Metrics, s: Screen, t: Screen, rest: string) returns (r: Screen)
    requires Shaped(s) && Shaped(t) && s.cols == t.cols && s.rows == t.rows && s.x == 0
    requires Legible(m, t.grid[s.y]) && StylesReplay(t) && Shows(s, t, s.y)
    ensures Shaped(r) && r.cols == s.cols && r.rows == s.rows && r.y == s.y && Shows(r, t, s.y + 1)
    ensures Drain(m, s, AnsiRow(t.grid[s.y], t.styles[s.y]) + rest) == Drain(m, r, rest)
  {
    var row, inks := t.grid[s.y], t.styles[s.y];
    assert Boundary(row, 0);
    hide Drain, LegibleAt, Replays, Ink, Tiled;
    var tail := Sgr("0") + rest;
    assert AnsiRow(row, inks) + rest == Ink(row, inks, 0) + tail;
    var inked := RowFed(m, s, row, inks, 0, tail);
    ResetFed(m, inked, rest);
    r := inked.(style := "");
    RowNowShown(s, inked, t);
  }

  lemma RowNowShown(s: Screen, r: Screen, t: Screen)
    requires Shaped(s) && Shaped(r) && Shaped(t) && s.cols == t.cols && s.rows == t.rows && r.cols == s.cols
    requires Shows(s, t, s.y) && OnlyFrom(s, r, 0) && Written(r, t.grid[s.y], t.styles[s.y], s.cols)
    ensures Shows(r, t, s.y + 1)
  {
    CursorRow(r);
    assert r.grid[s.y][..s.cols] == r.grid[s.y] && t.grid[s.y][..s.cols] == t.grid[s.y];
    forall j | 0 <= j <= s.y ensures RowShown(r.grid[j], r.styles[j], t.grid[j], t.styles[j]) {
      if j < s.y { assert RowShown(s.grid[j], s.styles[j], t.grid[j], t.styles[j]); }
    }
  }

  lemma LegibleRow(m: Metrics, t: Screen, k: nat)
    requires Shaped(t) && AllLegible(m, t) && k < t.rows
    ensures Legible(m, t.grid[k])
  {
  }

  lemma JoinFrom(lines: seq<string>, k: nat, sep: string)
    requires k < |lines|
    ensures Join(lines[k..], sep) == lines[k] + (if k + 1 == |lines| then "" else sep + Join(lines[k + 1..], sep))
  {
    assert lines[k..][1..] == lines[k + 1..];
  }

  lemma {:induction false} AnsiRowsFed(m: Metrics, s: Screen, t: Screen)
    requires Shaped(s) && Shaped(t) && s.cols == t.cols && s.rows == t.rows && s.x == 0
    requires AllLegible(m, t) && StylesReplay(t) && Shows(s, t, s.y)
    ensures var r := Drain(m, s, Join(AnsiRows(t)[s.y..], "\r\n")); r.pending == "" && Shows(r.screen, t, t.rows)
    decreases s.rows - s.y
  {
    var k, lines := s.y, AnsiRows(t);
    assert lines[k] == AnsiRow(t.grid[k], t.styles[k]);
    hide Drain, AllLegible, StylesReplay, RowsShaped, AnsiRow, AnsiRows, RowShown, Join;
    JoinFrom(lines, k, "\r\n");
    LegibleRow(m, t, k);
    if k + 1 == s.rows {
      var r := AnsiRowFed(m, s, t, "");
      DrainOne(m, r, "");
    } else {
      var rest := Join(lines[k + 1..], "\r\n");
      var r := AnsiRowFed(m, s, t, "\r\n" + rest);
      LineBreakFed(m, r, rest);
      AnsiRowsFed(m, r.(x := 0, y := k + 1), t);
    }
  }

  lemma {:induction false} InkOfAgreeing(row: Row, a: Row, b: Row, p: nat)
    requires |row| == |a| == |b| && p <= |row| && InksAgree(row, a, b, |row|)
    ensures Ink(row, a, p) == Ink(row, b, p)
    decreases |row| - p
  {
    if p < |row| { InkOfAgreeing(row, a, b, p + 1); }
  }

  /** The styled snapshot of a legible screen, fed line by line to an empty screen of the same size, gives back the same
      cells, the same style on every non-empty cell, and the same snapshot. */
  lemma SnapshotRoundTrip(m: Metrics, t: Screen)
    requires Shaped(t) && AllLegible(m, t) && StylesReplay(t)
    ensures var r := Drain(m, Fresh(t.cols, t.rows), Join(AnsiRows(t), "\r\n"));
            && r.pending == "" && r.screen.grid == t.grid
            && (forall k :: 0 <= k < t.rows ==> InksAgree(t.grid[k], r.screen.styles[k], t.styles[k], t.cols))
            && Ansi(r.screen) == Ansi(t)
  {
    hide Drain, AllLegible, StylesReplay, Ink;
    var s := Fresh(t.cols, t.rows);
    assert AnsiRows(t)[0..] == AnsiRows(t);
    AnsiRowsFed(m, s, t);
    var r := Drain(m, s, Join(AnsiRows(t), "\r\n")).screen;
    forall k | 0 <= k < t.rows
      ensures r.grid[k] == t.grid[k] && InksAgree(t.grid[k], r.styles[k], t.styles[k], t.cols)
      ensures AnsiRow(r.grid[k], r.styles[k]) == AnsiRow(t.grid[k], t.styles[k])
    {
      assert RowShown(r.grid[k], r.styles[k], t.grid[k], t.styles[k]);
      InkOfAgreeing(t.grid[k], r.styles[k], t.styles[k], 0);
    }
    assert r.grid == t.grid && AnsiRows(r) == AnsiRows(t);
  }

  lemma FreshReplays(cols: nat, rows: nat)
    requires 2 <= cols && 1 <= rows
    ensures Shaped(Fresh(cols, rows)) && Fresh(cols, rows).cols == cols && Fresh(cols, rows).rows == rows
    ensures StylesReplay(Fresh(cols, rows))
  {
  }

  /** The same for whatever screen any input reaches from empty: its styles always qualify, only its cells must be legible. */
  lemma ReachedSnapshotRoundTrip(m: Metrics, cols: nat, rows: nat, p: string)
    requires 2 <= cols && 1 <= rows && AllLegible(m, Drain(m, Fresh(cols, rows), p).screen)
    ensures var t := Drain(m, Fresh(cols, rows), p).screen;
            var r := Drain(m, Fresh(cols, rows), Join(AnsiRows(t), "\r\n")).screen;
            r.grid == t.grid && Ansi(r) == Ansi(t)
  {
    hide Drain, AllLegible, Ansi, AnsiRows, Shaped, Fresh, StylesReplay, InksAgree, Join;
    FreshReplays(cols, rows);
    DrainStylesReplay(m, Fresh(cols, rows), p);
    SnapshotRoundTrip(m, Drain(m, Fresh(cols, rows), p).screen);
  }
}
