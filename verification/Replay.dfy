/** Which screens come back from their own snapshot: on a screen whose cells grew as aligned input grows them, exactly those
    where every cell can be typed again and no glyph joins the one on its left. What cannot be typed leaves a mark in a cell
    where the screen has none, and since the snapshot holds no mark more than the screen, nothing after it makes up for that. */
module Replay {
  import opened Numbers
  import opened Strings
  import opened Terminal
  import opened Chunking
  import opened Tiling
  import opened Snapshot
  import opened Typing

  // ---------------------------------------------------------------------------
  // Counting what is drawn

  function Total<T>(f: T -> nat, s: seq<T>): nat {
    if s == [] then 0 else f(s[0]) + Total(f, s[1..])
  }

  lemma {:induction false} TotalOfBoth<T>(f: T -> nat, a: seq<T>, b: seq<T>)
    ensures Total(f, a + b) == Total(f, a) + Total(f, b)
  {
    if a == [] {
      assert a + b == b;
    } else {
      assert (a + b)[1..] == a[1..] + b;
      TotalOfBoth(f, a[1..], b);
    }
  }

  lemma TotalOfOne<T>(f: T -> nat, x: T)
    ensures Total(f, [x]) == f(x)
  {
    assert [x][1..] == [];
  }

  /** One element, and those before and after it. */
  lemma TotalSplit<T>(f: T -> nat, s: seq<T>, k: nat)
    requires k < |s|
    ensures Total(f, s) == Total(f, s[..k]) + f(s[k]) + Total(f, s[k + 1..])
  {
    assert s == s[..k] + [s[k]] + s[k + 1..];
    TotalOfBoth(f, s[..k] + [s[k]], s[k + 1..]);
    TotalOfBoth(f, s[..k], [s[k]]);
    TotalOfOne(f, s[k]);
  }

  lemma TotalOfUpdate<T>(f: T -> nat, s: seq<T>, k: nat, x: T)
    requires k < |s|
    ensures Total(f, s[k := x]) + f(s[k]) == Total(f, s) + f(x)
  {
    TotalSplit(f, s, k);
    TotalSplit(f, s[k := x], k);
    assert s[k := x][..k] == s[..k] && s[k := x][k + 1..] == s[k + 1..];
  }

  lemma TotalOfPrefix<T>(f: T -> nat, s: seq<T>, j: nat, k: nat)
    requires j <= k <= |s|
    ensures Total(f, s[..j]) <= Total(f, s[..k])
  {
    assert s[..k] == s[..j] + s[j..k];
    TotalOfBoth(f, s[..j], s[j..k]);
  }

  lemma {:induction false} TotalOfZeros<T>(f: T -> nat, s: seq<T>)
    requires forall k :: 0 <= k < |s| ==> f(s[k]) == 0
    ensures Total(f, s) == 0
  {
    if s != [] { TotalOfZeros(f, s[1..]); }
  }

  /** A character that leaves a mark. */
  function Mark(c: char): nat {
    if Printable(c) && c != ' ' then 1 else 0
  }

  function Marks(text: string): nat {
    Total(Mark, text)
  }

  function RowMarks(row: Row): nat {
    Total(Marks, row)
  }

  function GridMarks(grid: seq<Row>): nat {
    Total(RowMarks, grid)
  }

  lemma CellInRow(row: Row, q: nat)
    requires q < |row|
    ensures Marks(row[q]) <= RowMarks(row)
  {
    TotalSplit(Marks, row, q);
  }

  lemma PrefixInCell(u: string, cell: string)
    requires u <= cell
    ensures Marks(u) <= Marks(cell)
  {
    assert cell[..|u|] == u && cell[..|cell|] == cell;
    TotalOfPrefix(Mark, cell, |u|, |cell|);
  }

  lemma CharInCell(cell: string, c: char)
    ensures Marks([c]) == Mark(c) && Marks(cell + [c]) == Marks(cell) + Mark(c) && Marks("") == 0
  {
    TotalOfBoth(Mark, cell, [c]);
    TotalOfOne(Mark, c);
  }

  lemma BlankRowMarks(cols: nat)
    ensures RowMarks(BlankRow(cols, " ")) == 0
  {
    assert Marks(" ") == 0 by { TotalOfOne(Mark, ' '); }
    TotalOfZeros(Marks, BlankRow(cols, " "));
  }

  lemma FreshMarks(cols: nat, rows: nat)
    ensures GridMarks(Fresh(cols, rows).grid) == 0
  {
    BlankRowMarks(cols);
    TotalOfZeros(RowMarks, Fresh(cols, rows).grid);
  }

  // ---------------------------------------------------------------------------
  // What one character does to the marks

  /** A glyph put down replaces what its cells held. */
  lemma PlacedMarks(cells: Row, p: nat, glyph: string, width: CellWidth, q: nat)
    requires p < |cells| && q < |cells|
    ensures var r := Placed(cells, p, glyph, width);
            && RowMarks(r) + Marks(cells[p]) <= RowMarks(cells) + Marks(glyph)
            && (q != p ==> r[q] == cells[q] || RowMarks(r) + Marks(cells[p]) + Marks(cells[q]) <= RowMarks(cells) + Marks(glyph))
  {
    var r := Placed(cells, p, glyph, width);
    var one := cells[p := glyph];
    TotalOfUpdate(Marks, cells, p, glyph);
    if width == 2 && p + 1 < |cells| {
      assert r == one[p + 1 := ""];
      TotalOfUpdate(Marks, one, p + 1, "");
    } else {
      assert r == one;
    }
  }

  /** A printed character adds at most its own mark to the row; a cell it touches grows, or its marks are gone. */
  lemma PrintOnMarks(m: Metrics, pen: Pen, style: string, c: char, q: nat)
    requires PenShaped(pen) && !Wraps(m, pen.cells, pen.x, c) && q < |pen.cells|
    ensures var r := PrintOn(m, pen, style, c).cells;
            && RowMarks(r) <= RowMarks(pen.cells) + Mark(c)
            && (pen.cells[q] <= r[q] || RowMarks(r) + Marks(pen.cells[q]) <= RowMarks(pen.cells) + Mark(c))
  {
    hide Marks, RowMarks, Mark, Total;
    var cells := pen.cells;
    CharInCell("", c);
    if Joins(m, cells, pen.x, c) {
      var at := Before(cells, pen.x);
      CharInCell(cells[at], c);
      PlacedMarks(cells, at, cells[at] + [c], m.width(cells[at] + [c]), q);
    } else if m.width([c]) == 0 {
      if pen.x > 0 {
        var at := Min(pen.x - 1, |cells| - 1);
        CharInCell(cells[at], c);
        AppendMarks(cells, at, c);
      }
    } else {
      PlacedMarks(cells, pen.x, [c], m.width([c]), q);
    }
  }

  lemma AppendMarks(cells: Row, at: nat, c: char)
    requires at < |cells|
    ensures RowMarks(cells[at := cells[at] + [c]]) == RowMarks(cells) + Mark(c)
  {
    CharInCell(cells[at], c);
    TotalOfUpdate(Marks, cells, at, cells[at] + [c]);
  }

  // ---------------------------------------------------------------------------
  // What plain input does to the marks

  /** Input that draws and never goes back: characters, line breaks and styles. */
  predicate PlainToken(token: Token) {
    (token.Single? && token.c != BACKSPACE) || (token.Control? && token.final == 'm')
  }

  predicate Plain(p: string)
    decreases |p|
  {
    p != [] ==> Next(p).Lexeme? && PlainToken(Next(p).token) && Plain(p[Next(p).size..])
  }

  function TokenMarks(token: Token): nat {
    if token.Single? then Mark(token.c) else 0
  }

  /** How many marks plain input draws. */
  function Drawn(p: string): nat
    requires Plain(p)
    decreases |p|
  {
    if p == [] then 0 else TokenMarks(Next(p).token) + Drawn(p[Next(p).size..])
  }

  lemma PlainStep(p: string)
    requires p != ""
    ensures Plain(p) <==> Next(p).Lexeme? && PlainToken(Next(p).token) && Plain(p[Next(p).size..])
    ensures Plain(p) ==> Drawn(p) == TokenMarks(Next(p).token) + Drawn(p[Next(p).size..])
  {
    hide Next, PlainToken, TokenMarks;
  }

  lemma PlainNothing()
    ensures Plain("") && Drawn("") == 0
  {
  }

  lemma {:induction false} PlainBoth(a: string, b: string)
    requires Plain(a) && Plain(b)
    ensures Plain(a + b) && Drawn(a + b) == Drawn(a) + Drawn(b)
    decreases |a|
  {
    hide Next, PlainToken, TokenMarks, Plain, Drawn;
    PlainNothing();
    if a == [] {
      assert a + b == b;
    } else {
      PlainStep(a);
      PlainStep(a + b);
      NextOfLongerInput(a, b);
      assert (a + b)[Next(a).size..] == a[Next(a).size..] + b;
      PlainBoth(a[Next(a).size..], b);
    }
  }

  /** Plain input cut where no token is cut. */
  lemma {:induction false} PlainSplit(m: Metrics, s: Screen, a: string, b: string)
    requires Shaped(s) && Plain(a + b) && Drain(m, s, a).pending == ""
    ensures Plain(a) && Plain(b) && Drawn(a + b) == Drawn(a) + Drawn(b)
    decreases |a|
  {
    hide Next, PlainToken, TokenMarks, Step, Shaped, Drain, Plain, Drawn;
    DrainOne(m, s, a);
    PlainNothing();
    if a == [] {
      assert a + b == b;
    } else {
      PlainStep(a);
      PlainStep(a + b);
      NextOfLongerInput(a, b);
      assert (a + b)[Next(a).size..] == a[Next(a).size..] + b;
      PlainSplit(m, Step(m, s, Next(a).token), a[Next(a).size..], b);
    }
  }

  /** Some row at or above the cursor holds a cell that starts with `u`, under at least `above` marks. */
  predicate Stands(s: Screen, r: nat, q: nat, u: string, above: nat)
    requires Shaped(s)
  {
    CursorRow(s);
    r <= s.y && q < s.cols && u <= s.grid[r][q] && above <= GridMarks(s.grid[..r])
  }

  lemma NewLineMarks(s: Screen)
    requires Shaped(s)
    ensures GridMarks(NewLine(s).grid) <= GridMarks(s.grid)
    ensures s.y + 1 == s.rows ==> GridMarks(NewLine(s).grid) + RowMarks(s.grid[0]) == GridMarks(s.grid)
  {
    if s.y + 1 == s.rows {
      BlankRowMarks(s.cols);
      TotalOfBoth(RowMarks, s.grid[1..], [BlankRow(s.cols, " ")]);
      TotalOfOne(RowMarks, BlankRow(s.cols, " "));
      assert s.grid[..0] == [];
      TotalSplit(RowMarks, s.grid, 0);
    }
  }

  lemma NewLineStands(s: Screen, r: nat, q: nat, u: string, above: nat) returns (r': nat)
    requires Shaped(s) && 0 < Marks(u) && Stands(s, r, q, u, above)
    ensures r' <= r
    ensures GridMarks(NewLine(s).grid) < GridMarks(s.grid) || Stands(NewLine(s), r', q, u, above)
  {
    hide Marks, RowMarks, GridMarks;
    NewLineMarks(s);
    r' := r;
    if s.y + 1 == s.rows {
      if RowMarks(s.grid[0]) == 0 {
        if r == 0 {
          CellInRow(s.grid[0], q);
          PrefixInCell(u, s.grid[0][q]);
        }
        r' := r - 1;
        FirstRowGone(s.grid, r);
        assert NewLine(s).grid[..r - 1] == s.grid[1..][..r - 1];
      }
    }
  }

  lemma FirstRowGone(grid: seq<Row>, r: nat)
    requires 0 < r <= |grid| && RowMarks(grid[0]) == 0
    ensures GridMarks(grid[1..][..r - 1]) == GridMarks(grid[..r])
  {
    assert grid[..r][1..] == grid[1..][..r - 1] && grid[..r][0] == grid[0];
  }

  lemma WithRowMarks(s: Screen, pen: Pen)
    requires Shaped(s) && |pen.cells| == |pen.inks| == s.cols && pen.x <= s.cols + 1
    ensures GridMarks(WithRow(s, pen.cells, pen.inks, pen.x).grid) + RowMarks(s.grid[s.y]) == GridMarks(s.grid) + RowMarks(pen.cells)
  {
    TotalOfUpdate(RowMarks, s.grid, s.y, pen.cells);
  }

  /** A printable character that does not wrap. */
  lemma PutMarks(m: Metrics, s: Screen, c: char, r: nat, q: nat, u: string, above: nat)
    requires Shaped(s) && !Wraps(m, s.grid[s.y], s.x, c)
    ensures GridMarks(Print(m, s, c).grid) <= GridMarks(s.grid) + Mark(c)
    ensures 0 < Marks(u) && Stands(s, r, q, u, above) ==>
              GridMarks(Print(m, s, c).grid) < GridMarks(s.grid) + Mark(c) || Stands(Print(m, s, c), r, q, u, above)
  {
    hide Marks, RowMarks, GridMarks, Mark, PrintOn, Wraps;
    var pen := PrintOn(m, PenOf(s), s.style, c);
    WithRowMarks(s, pen);
    PrintOnMarks(m, PenOf(s), s.style, c, 0);
    if 0 < Marks(u) && Stands(s, r, q, u, above) {
      PrintOnMarks(m, PenOf(s), s.style, c, q);
      assert Print(m, s, c).grid[..r] == s.grid[..r];
      PrefixInCell(u, s.grid[r][q]);
    }
  }

  lemma PrintStands(m: Metrics, s: Screen, c: char, r: nat, q: nat, u: string, above: nat) returns (r': nat)
    requires Shaped(s)
    ensures GridMarks(Print(m, s, c).grid) <= GridMarks(s.grid) + Mark(c)
    ensures r' <= r
    ensures 0 < Marks(u) && Stands(s, r, q, u, above) ==>
              GridMarks(Print(m, s, c).grid) < GridMarks(s.grid) + Mark(c) || Stands(Print(m, s, c), r', q, u, above)
  {
    CursorRow(s);
    r' := r;
    if Wraps(m, s.grid[s.y], s.x, c) {
      var line := NewLine(s.(x := 0));
      assert !Wraps(m, line.grid[line.y], line.x, c) && Print(m, s, c) == Print(m, line, c) by { WrapsOnce(m, s, c); }
      hide Marks, RowMarks, GridMarks, Mark, Print, Wraps, NewLine, RowsShaped;
      NewLineMarks(s.(x := 0));
      if 0 < Marks(u) && Stands(s, r, q, u, above) {
        r' := NewLineStands(s.(x := 0), r, q, u, above);
      }
      PutMarks(m, line, c, r', q, u, above);
    } else {
      PutMarks(m, s, c, r, q, u, above);
    }
  }

  lemma WrapsOnce(m: Metrics, s: Screen, c: char)
    requires Shaped(s) && Wraps(m, s.grid[s.y], s.x, c)
    ensures var line := NewLine(s.(x := 0)); !Wraps(m, line.grid[line.y], line.x, c) && Print(m, s, c) == Print(m, line, c)
  {
    CursorRow(NewLine(s.(x := 0)));
    hide RowsShaped, NewLine, Before;
  }

  /** A plain token adds at most its marks; what stood still stands, or marks are gone for good. */
  lemma StepStands(m: Metrics, s: Screen, token: Token, r: nat, q: nat, u: string, above: nat) returns (r': nat)
    requires Shaped(s) && PlainToken(token)
    ensures GridMarks(Step(m, s, token).grid) <= GridMarks(s.grid) + TokenMarks(token)
    ensures r' <= r
    ensures 0 < Marks(u) && Stands(s, r, q, u, above) ==>
              GridMarks(Step(m, s, token).grid) < GridMarks(s.grid) + TokenMarks(token) || Stands(Step(m, s, token), r', q, u, above)
  {
    r' := r;
    match token
    case Control(body, final) =>
      hide Args;
    case Single(c) =>
      hide Marks, RowMarks, GridMarks, Print, NewLine;
      if c == '\n' {
        NewLineMarks(s);
        if 0 < Marks(u) && Stands(s, r, q, u, above) { r' := NewLineStands(s, r, q, u, above); }
      } else if Printable(c) {
        r' := PrintStands(m, s, c, r, q, u, above);
      }
    case _ =>
  }

  lemma {:induction false} RunMarks(m: Metrics, s: Screen, p: string)
    requires Shaped(s) && Plain(p)
    ensures GridMarks(Drain(m, s, p).screen.grid) <= GridMarks(s.grid) + Drawn(p) && Drain(m, s, p).pending == ""
    decreases |p|
  {
    hide Step, Next, PlainToken, TokenMarks, GridMarks, Shaped, Drain, Plain, Drawn;
    DrainOne(m, s, p);
    PlainNothing();
    if p != [] {
      PlainStep(p);
      var _ := StepStands(m, s, Next(p).token, 0, 0, "", 0);
      RunMarks(m, Step(m, s, Next(p).token), p[Next(p).size..]);
    }
  }

  /** The same over any plain input. */
  lemma {:induction false} RunStands(m: Metrics, s: Screen, p: string, r: nat, q: nat, u: string, above: nat) returns (r': nat)
    requires Shaped(s) && Plain(p) && 0 < Marks(u) && Stands(s, r, q, u, above)
    ensures var e := Drain(m, s, p).screen;
            r' <= r && (GridMarks(e.grid) < GridMarks(s.grid) + Drawn(p) || Stands(e, r', q, u, above))
    decreases |p|
  {
    hide Step, Next, PlainToken, TokenMarks, GridMarks, Marks, Stands, Shaped, Drain, Plain, Drawn;
    DrainOne(m, s, p);
    PlainNothing();
    r' := r;
    if p != [] {
      PlainStep(p);
      var next, rest := Step(m, s, Next(p).token), p[Next(p).size..];
      r' := StepStands(m, s, Next(p).token, r, q, u, above);
      RunMarks(m, next, rest);
      if Stands(next, r', q, u, above) { r' := RunStands(m, next, rest, r', q, u, above); }
    }
  }

  // ---------------------------------------------------------------------------
  // The snapshot is plain input, with the marks of the screen

  predicate AllPrintable(text: string) {
    forall i :: 0 <= i < |text| ==> Printable(text[i])
  }

  lemma GrownPrintable(m: Metrics, row: Row, k: nat)
    requires k < |row| && GrownAt(m, row, k)
    ensures AllPrintable(row[k])
  {
    var g := row[k];
    forall i | 0 <= i < |g| ensures Printable(g[i]) {
      if 0 < i { assert PrefixGrown(m, g, i, |row| - k); }
    }
  }

  lemma PlainChar(c: char, rest: string)
    requires c != ESC && c != BACKSPACE && Plain(rest)
    ensures Plain([c] + rest) && Drawn([c] + rest) == Mark(c) + Drawn(rest)
  {
    assert ([c] + rest)[1..] == rest;
  }

  lemma PlainReset()
    ensures Plain(Sgr("0")) && Drawn(Sgr("0")) == 0
  {
    var p := Sgr("0");
    assert ControlSequence(p, 3) && p[..4] == p && p[4..] == "";
    ControlTokenIsControlSequence(p, 4);
    hide Next;
  }

  lemma PlainBreak()
    ensures Plain("\r\n") && Drawn("\r\n") == 0
  {
    PlainChar('\n', "");
    PlainChar('\r', "\n");
    assert ['\n'] + "" == "\n" && ['\r'] + "\n" == "\r\n";
  }

  lemma {:induction false} PlainStyle(style: string)
    requires Replays(style)
    ensures Plain(style) && Drawn(style) == 0
    decreases |style|
  {
    hide Next;
    if style != [] { PlainStyle(style[Next(style).size..]); }
  }

  lemma {:induction false} PlainGlyph(g: string)
    requires AllPrintable(g)
    ensures Plain(g) && Drawn(g) == Marks(g)
  {
    hide Plain, Drawn;
    if g == [] {
      PlainNothing();
    } else {
      PlainGlyph(g[1..]);
      PlainChar(g[0], g[1..]);
      assert [g[0]] + g[1..] == g;
    }
  }

  lemma PlainCell(ink: string, cell: string)
    requires Replays(ink) && AllPrintable(cell)
    ensures var p := CellText(ink, cell); Plain(p) && Drawn(p) == Marks(cell)
  {
    hide Plain, Drawn, Marks, Replays;
    PlainReset();
    PlainStyle(ink);
    PlainGlyph(cell);
    PlainBoth(Sgr("0"), ink);
    PlainBoth(Sgr("0") + ink, cell);
  }

  lemma {:induction false} PlainInk(row: Row, inks: Row, p: nat)
    requires |row| == |inks| && p <= |row|
    requires forall k :: 0 <= k < |row| ==> AllPrintable(row[k]) && Replays(inks[k])
    ensures Plain(Ink(row, inks, p)) && Drawn(Ink(row, inks, p)) == RowMarks(row[p..])
    decreases |row| - p
  {
    hide Plain, Drawn, Replays, AllPrintable, Marks;
    PlainNothing();
    if p < |row| {
      PlainInk(row, inks, p + 1);
      assert row[p..][1..] == row[p + 1..];
      CharInCell("", ' ');
      if row[p] != "" {
        PlainCell(inks[p], row[p]);
        PlainBoth(CellText(inks[p], row[p]), Ink(row, inks, p + 1));
      } else {
        assert [] + Ink(row, inks, p + 1) == Ink(row, inks, p + 1);
      }
    }
  }

  lemma PlainRow(m: Metrics, row: Row, inks: Row)
    requires |row| == |inks| && Grown(m, row) && forall k :: 0 <= k < |inks| ==> Replays(inks[k])
    ensures Plain(AnsiRow(row, inks)) && Drawn(AnsiRow(row, inks)) == RowMarks(row)
  {
    hide Plain, Drawn, Replays, AllPrintable, RowMarks, GrownAt, Ink;
    forall k | 0 <= k < |row| ensures AllPrintable(row[k]) { GrownPrintable(m, row, k); }
    PlainInk(row, inks, 0);
    assert row[0..] == row;
    PlainReset();
    PlainBoth(Ink(row, inks, 0), Sgr("0"));
  }

  lemma MarksFrom(grid: seq<Row>, k: nat)
    requires k < |grid|
    ensures GridMarks(grid[k..]) == RowMarks(grid[k]) + GridMarks(grid[k + 1..]) && GridMarks([]) == 0
  {
    assert grid[k..][1..] == grid[k + 1..] && grid[k..][0] == grid[k];
  }

  lemma {:induction false} PlainRows(m: Metrics, t: Screen, k: nat)
    requires Shaped(t) && AllGrown(m, t) && StylesReplay(t) && k < t.rows
    ensures var p := Join(AnsiRows(t)[k..], "\r\n"); Plain(p) && Drawn(p) == GridMarks(t.grid[k..])
    decreases t.rows - k
  {
    var lines, row := AnsiRows(t), AnsiRow(t.grid[k], t.styles[k]);
    assert lines[k] == row;
    hide Plain, Drawn, Replays, RowMarks, GridMarks, Grown, AnsiRow, AnsiRows, Join;
    JoinFrom(lines, k, "\r\n");
    PlainRow(m, t.grid[k], t.styles[k]);
    MarksFrom(t.grid, k);
    if k + 1 == t.rows {
      assert row + "" == row && t.grid[k + 1..] == [];
    } else {
      var rest := Join(lines[k + 1..], "\r\n");
      PlainRows(m, t, k + 1);
      PlainBreak();
      PlainBoth("\r\n", rest);
      PlainBoth(row, "\r\n" + rest);
    }
  }

  // ---------------------------------------------------------------------------
  // What cannot be typed again leaves its mark

  /** Where replaying a text goes wrong: what was fed until then and what was not, the screen reached, and a column of the
      cursor's row whose cell starts with something it should not. */
  datatype Slip = Slip(done: string, rest: string, screen: Screen, column: nat, mark: string)

  /** Feeding `text` to `s` goes wrong in the cursor's row, which should have been `row`; the rows above it are as they were. */
  predicate Slips(m: Metrics, s: Screen, text: string, row: Row, e: Slip)
    requires Shaped(s) && |row| == s.cols
  {
    && text == e.done + e.rest && Drain(m, s, e.done) == Receiver(e.screen, "") && SameAbove(s, e.screen)
    && e.column < s.cols && e.mark <= e.screen.grid[s.y][e.column] && !(e.mark <= row[e.column]) && 0 < Marks(e.mark)
  }

  predicate SameAbove(s: Screen, r: Screen)
    requires Shaped(s)
  {
    CursorRow(s);
    Shaped(r) && r.cols == s.cols && r.rows == s.rows && r.y == s.y && r.grid[..s.y] == s.grid[..s.y]
  }

  lemma FedBoth(m: Metrics, s: Screen, a: string, b: string)
    requires Shaped(s) && Drain(m, s, a).pending == ""
    ensures Drain(m, s, a + b) == Drain(m, Drain(m, s, a).screen, b)
  {
    hide Drain, Shaped;
    DrainInTwo(m, s, a, b);
    assert "" + b == b;
  }

  lemma SameAboveTwice(s: Screen, r: Screen, t: Screen)
    requires Shaped(s) && Shaped(r) && SameAbove(s, r) && SameAbove(r, t)
    ensures SameAbove(s, t)
  {
    hide RowsShaped;
  }

  lemma SameSizeAbove(s: Screen, r: Screen)
    requires Shaped(s) && SameAbove(s, r)
    ensures Shaped(r) && r.y == s.y && r.cols == s.cols && r.rows == s.rows
  {
    hide RowsShaped;
  }

  lemma Assoc(a: string, b: string, c: string)
    ensures a + (b + c) == a + b + c
  {
  }

  /** The same slip with more text before it, or after it. */
  lemma SlipAfter(m: Metrics, s: Screen, front: string, r: Screen, text: string, row: Row, e: Slip)
    requires Shaped(s) && Shaped(r) && SameAbove(s, r) && |row| == s.cols == r.cols
    requires Drain(m, s, front) == Receiver(r, "") && Slips(m, r, text, row, e)
    ensures Slips(m, s, front + text, row, e.(done := front + e.done))
  {
    hide Drain, Shaped, Marks, SameAbove;
    SameSizeAbove(s, r);
    SameAboveTwice(s, r, e.screen);
    FedBoth(m, s, front, e.done);
    Assoc(front, e.done, e.rest);
  }

  lemma SlipBefore(m: Metrics, s: Screen, text: string, row: Row, e: Slip, back: string)
    requires Shaped(s) && |row| == s.cols && Slips(m, s, text, row, e)
    ensures Slips(m, s, text + back, row, e.(rest := e.rest + back))
  {
    hide Drain, Shaped, Marks, SameAbove;
    Assoc(e.done, e.rest, back);
  }

  lemma JoinedInPlace(m: Metrics, s: Screen, c: char)
    requires Shaped(s) && s.x < s.cols && Printable(c) && Joins(m, s.grid[s.y], s.x, c)
    ensures var r, q := Print(m, s, c), Lead(s.grid[s.y], s.x - 1); SameAbove(s, r) && r.grid[s.y][q] == s.grid[s.y][q] + [c]
    ensures Drain(m, s, [c]) == Receiver(Print(m, s, c), "")
  {
    hide RowsShaped, Drain;
    CursorRow(s);
    CursorRow(Print(m, s, c));
    assert [c] + "" == [c];
    PrintableFed(m, s, c, "");
    DrainOne(m, Print(m, s, c), "");
  }

  lemma JoinsThere(m: Metrics, s: Screen, row: Row, inks: Row)
    requires Shaped(s) && |row| == |inks| == s.cols && Tiled(m, row) && 0 < s.x < s.cols && row[s.x] != ""
    requires Written(s, row, inks, s.x) && JoinsAfter(m, row[Lead(row, s.x - 1)], row[s.x][0])
    ensures var q := Lead(row, s.x - 1); q == Lead(s.grid[s.y], s.x - 1) && row[q] == s.grid[s.y][q]
    ensures Joins(m, s.grid[s.y], s.x, row[s.x][0])
  {
    CursorRow(s);
    LeadOfPrefix(s.grid[s.y], row, s.x);
  }

  /** A glyph whose first character joins the glyph on its left. */
  lemma JoinSlips(m: Metrics, s: Screen, row: Row, inks: Row) returns (e: Slip)
    requires Shaped(s) && |row| == |inks| == s.cols && Tiled(m, row) && 0 < s.x < s.cols && row[s.x] != ""
    requires Printable(row[s.x][0]) && Written(s, row, inks, s.x) && JoinsAfter(m, row[Lead(row, s.x - 1)], row[s.x][0])
    ensures Slips(m, s, row[s.x], row, e)
  {
    var g, q := row[s.x], Lead(row, s.x - 1);
    var c := g[0];
    assert g == [c] + g[1..] && Mark(c) == 1;
    JoinsThere(m, s, row, inks);
    JoinedInPlace(m, s, c);
    CharInCell(row[q], c);
    hide RowsShaped, Drain, Joins, JoinsAfter, Marks, Lead, Print, Tiled, Written, Mark;
    CursorRow(s);
    e := Slip([c], g[1..], Print(m, s, c), q, row[q] + [c]);
  }

  /** A character without width after a wide glyph: it slides onto the second cell. */
  lemma ThinSlides(m: Metrics, s: Screen, p: nat, g: string, c: char)
    requires Shaped(s) && p + 2 <= s.cols && g != "" && Holds(m, s, p, g) && m.width(g) == 2
    requires !JoinsAfter(m, g, c) && m.width([c]) == 0
    ensures var r := Print(m, s, c); SameAbove(s, r) && r.grid[s.y][p + 1] == [c]
  {
    hide RowsShaped;
    CursorRow(s);
    assert Before(s.grid[s.y], s.x) == p;
    CursorRow(Print(m, s, c));
    assert "" + [c] == [c];
  }

  /** The first character that cannot be typed where it was. */
  lemma FirstStuck(m: Metrics, g: string, room: int) returns (i: nat)
    requires GlyphGrown(m, g, room) && !Composed(m, g)
    ensures 1 <= i < |g| && Composed(m, g[..i]) && m.width(g[..i]) == 2 <= room && g[..i][..1] == g[..1]
    ensures !JoinsAfter(m, g[..i], g[i]) && Printable(g[i]) && m.width([g[i]]) == 0
  {
    assert PrefixGrown(m, g, 1, room);
    i := 1;
    while i < |g| && GrowsAt(m, g, i)
      invariant 1 <= i <= |g| && forall j :: 1 <= j < i ==> GrowsAt(m, g, j)
    {
      i := i + 1;
    }
    assert PrefixGrown(m, g, i, room) && PrefixGrown(m, g, i + 1, room);
    var h := g[..i];
    assert h[..1] == g[..1];
    forall j | 1 <= j < |h| ensures GrowsAt(m, h, j) {
      assert GrowsAt(m, g, j) && h[..j] == g[..j] && h[..j + 1] == g[..j + 1];
    }
  }

  lemma ThinIsNotThere(m: Metrics, row: Row, k: nat, c: char)
    requires k < |row| && GrownAt(m, row, k) && m.width([c]) == 0 && Printable(c) && Measures(m)
    ensures !([c] <= row[k]) && 0 < Marks([c])
  {
    CharInCell("", c);
    if row[k] != "" { assert PrefixGrown(m, row[k], 1, |row| - k) && row[k][..1] == [row[k][0]]; }
  }

  lemma ThinSlidesHere(m: Metrics, s: Screen, next: Screen, g: string, c: char)
    requires Shaped(s) && Shaped(next) && s.x + 2 <= s.cols && OnlyFrom(s, next, s.x) && g != "" && Holds(m, next, s.x, g)
    requires m.width(g) == 2 && !JoinsAfter(m, g, c) && m.width([c]) == 0
    ensures var r := Print(m, next, c); SameAbove(s, r) && r.grid[s.y][s.x + 1] == [c]
  {
    hide Print, Holds, JoinsAfter, RowsShaped;
    CursorRow(s);
    CursorRow(next);
    ThinSlides(m, next, s.x, g, c);
  }

  /** Typing a wide glyph and a character without width after it. */
  lemma ThinFed(m: Metrics, s: Screen, g: string, c: char) returns (r: Screen)
    requires Shaped(s) && g != "" && Composed(m, g) && s.x + 2 <= s.cols && m.width(g[..1]) <= 2 == m.width(g)
    requires !Joins(m, s.grid[s.y], s.x, g[0]) && !JoinsAfter(m, g, c) && Printable(c) && m.width([c]) == 0
    ensures Drain(m, s, g + [c]) == Receiver(r, "") && SameAbove(s, r) && r.grid[s.y][s.x + 1] == [c]
  {
    hide Drain, Composed, Print, Joins, JoinsAfter, Holds, OnlyFrom, SameAbove, Shaped;
    var next := GlyphFed(m, s, g, "");
    r := Print(m, next, c);
    ThinSlidesHere(m, s, next, g, c);
    DrainOne(m, next, "");
    PrintableFed(m, next, c, "");
    DrainOne(m, r, "");
    assert g + "" == g && [c] + "" == [c];
    FedBoth(m, s, g, [c]);
  }

  lemma StuckInRow(m: Metrics, row: Row, p: nat) returns (i: nat)
    requires Measures(m) && Grown(m, row) && p < |row| && row[p] != "" && !Composed(m, row[p])
    ensures p + 2 <= |row| && 1 <= i < |row[p]| && Composed(m, row[p][..i]) && m.width(row[p][..i]) == 2
    ensures var c := row[p][i];
            !JoinsAfter(m, row[p][..i], c) && Printable(c) && m.width([c]) == 0 && !([c] <= row[p + 1]) && 0 < Marks([c])
  {
    hide Composed, JoinsAfter;
    assert GrownAt(m, row, p);
    i := FirstStuck(m, row[p], |row| - p);
    assert GrownAt(m, row, p + 1);
    ThinIsNotThere(m, row, p + 1, row[p][i]);
  }

  /** A glyph that grew on the screen as it cannot grow when typed in one go. */
  lemma GlyphSlips(m: Metrics, s: Screen, row: Row) returns (e: Slip)
    requires Measures(m) && Shaped(s) && |row| == s.cols && Grown(m, row) && s.x < s.cols && row[s.x] != ""
    requires !Composed(m, row[s.x]) && !Joins(m, s.grid[s.y], s.x, row[s.x][0])
    ensures Slips(m, s, row[s.x], row, e)
  {
    hide Drain, Composed, Print, Marks, RowsShaped, Joins, JoinsAfter, Grown;
    var p, g := s.x, row[s.x];
    var i := StuckInRow(m, row, p);
    var front, c := g[..i], g[i];
    assert g == front + [c] + g[i + 1..] && front[0] == g[0] && m.width(front[..1]) <= 2;
    var r := ThinFed(m, s, front, c);
    e := Slip(front + [c], g[i + 1..], r, p + 1, [c]);
  }

  /** A reset and a style, alone. */
  lemma InkFed(m: Metrics, s: Screen, ink: string)
    requires Shaped(s) && Replays(ink)
    ensures Drain(m, s, Sgr("0") + ink) == Receiver(s.(style := ink), "") && SameAbove(s, s.(style := ink))
    ensures Shaped(s.(style := ink))
  {
    hide Drain, Replays, RowsShaped;
    CursorRow(s);
    assert ink + "" == ink && "" + ink == ink;
    ResetFed(m, s, ink);
    StyleFed(m, s.(style := ""), "", ink, "");
    DrainOne(m, s.(style := ink), "");
  }

  /** Why a cell cannot be typed where it is. */
  lemma WhyIllegible(m: Metrics, row: Row, p: nat)
    requires Tiled(m, row) && Grown(m, row) && p < |row| && !LegibleAt(m, row, p)
    ensures row[p] != "" && Printable(row[p][0])
    ensures (0 < p && JoinsAfter(m, row[Lead(row, p - 1)], row[p][0])) || !Composed(m, row[p])
  {
    hide Composed, JoinsAfter, Lead;
    assert GrownAt(m, row, p) && PrefixGrown(m, row[p], 1, |row| - p);
  }

  lemma NoJoin(m: Metrics, s: Screen, row: Row, inks: Row)
    requires Shaped(s) && |row| == |inks| == s.cols && s.x < s.cols && row[s.x] != "" && Written(s, row, inks, s.x)
    requires !(0 < s.x && JoinsAfter(m, row[Lead(row, s.x - 1)], row[s.x][0]))
    ensures !Joins(m, s.grid[s.y], s.x, row[s.x][0])
  {
    CursorRow(s);
    if 0 < s.x { LeadOfPrefix(s.grid[s.y], row, s.x); }
  }

  lemma StillWritten(s: Screen, row: Row, inks: Row, p: nat, style: string)
    requires Shaped(s) && |row| == |inks| == s.cols && p <= s.cols && Written(s, row, inks, p)
    ensures Shaped(s.(style := style)) && Written(s.(style := style), row, inks, p) && s.x == p
  {
    hide RowsShaped;
  }

  lemma CellTextIs(ink: string, cell: string)
    ensures CellText(ink, cell) == (Sgr("0") + ink) + cell
  {
  }

  lemma CellSlips(m: Metrics, s: Screen, row: Row, inks: Row, p: nat) returns (e: Slip)
    requires Measures(m) && Shaped(s) && |row| == |inks| == s.cols && Tiled(m, row) && Grown(m, row) && p < s.cols
    requires Replays(inks[p]) && Written(s, row, inks, p) && !LegibleAt(m, row, p)
    ensures Slips(m, s, CellText(inks[p], row[p]), row, e)
  {
    hide Drain, Composed, LegibleAt, Tiled, Grown, Written, Shaped, JoinsAfter, Lead, Replays, Slips, Sgr, CellText, SameAbove;
    var front, inked := Sgr("0") + inks[p], s.(style := inks[p]);
    WhyIllegible(m, row, p);
    InkFed(m, s, inks[p]);
    StillWritten(s, row, inks, p, inks[p]);
    if 0 < p && JoinsAfter(m, row[Lead(row, p - 1)], row[p][0]) {
      e := JoinSlips(m, inked, row, inks);
    } else {
      NoJoin(m, inked, row, inks);
      e := GlyphSlips(m, inked, row);
    }
    CellTextIs(inks[p], row[p]);
    SlipAfter(m, s, front, inked, row[p], row, e);
    e := e.(done := front + e.done);
  }

  lemma OnlyThatRow(s: Screen, r: Screen, p: nat)
    requires Shaped(s) && Shaped(r) && p <= s.cols && OnlyFrom(s, r, p)
    ensures SameAbove(s, r)
  {
  }

  lemma CellFedAlone(m: Metrics, s: Screen, row: Row, inks: Row, p: nat) returns (r: Screen)
    requires Shaped(s) && |row| == |inks| == s.cols && Tiled(m, row) && p < s.cols && row[p] != "" && Replays(inks[p])
    requires LegibleAt(m, row, p) && Written(s, row, inks, p)
    ensures Shaped(r) && r.cols == s.cols && p + m.width(row[p]) <= s.cols && Written(r, row, inks, p + m.width(row[p]))
    ensures Drain(m, s, CellText(inks[p], row[p])) == Receiver(r, "") && SameAbove(s, r)
  {
    CellTextGrouped(inks[p], row[p]);
    hide Drain, Replays, Tiled, LegibleAt, Written, CellText, Sgr, OnlyFrom, SameAbove, Shaped;
    r := CellFed(m, s, row, inks, p, "");
    OnlyThatRow(s, r, p);
    DrainOne(m, r, "");
  }

  lemma NotBefore(m: Metrics, row: Row, p: nat, k: nat)
    requires Tiled(m, row) && p < |row| && row[p] != "" && p <= k < |row| && !LegibleAt(m, row, k) && LegibleAt(m, row, p)
    ensures p + m.width(row[p]) <= k
  {
    assert GlyphAt(m, row, p);
    hide Composed, JoinsAfter, Lead;
  }

  /** A row with a cell that cannot be typed goes wrong at its first such cell. */
  lemma {:induction false} RowSlips(m: Metrics, s: Screen, row: Row, inks: Row, p: nat, k: nat) returns (e: Slip)
    requires Measures(m) && Shaped(s) && |row| == |inks| == s.cols && Tiled(m, row) && Grown(m, row) && Boundary(row, p)
    requires (forall j :: 0 <= j < |inks| ==> Replays(inks[j])) && p <= k < s.cols && !LegibleAt(m, row, k)
    requires Written(s, row, inks, p)
    ensures Slips(m, s, Ink(row, inks, p), row, e)
    decreases |row| - p
  {
    hide Drain, Shaped, LegibleAt, Grown, Replays, Written, Ink, CellText, Slips, SameAbove, Tiled, Boundary;
    InkOfGlyph(m, row, inks, p);
    var cell, next := CellText(inks[p], row[p]), p + m.width(row[p]);
    if LegibleAt(m, row, p) {
      NotBefore(m, row, p, k);
      var r := CellFedAlone(m, s, row, inks, p);
      e := RowSlips(m, r, row, inks, next, k);
      SlipAfter(m, s, cell, r, Ink(row, inks, next), row, e);
      e := e.(done := cell + e.done);
    } else {
      e := CellSlips(m, s, row, inks, p);
      SlipBefore(m, s, cell, row, e, Ink(row, inks, next));
      e := e.(rest := e.rest + Ink(row, inks, next));
    }
  }

  /** Feeding `text` goes wrong in row `at` of `t`, with every mark of the rows above it in place. */
  predicate Ruins(m: Metrics, s: Screen, t: Screen, text: string, e: Slip, at: nat)
    requires Shaped(s) && Shaped(t)
  {
    && text == e.done + e.rest && Drain(m, s, e.done) == Receiver(e.screen, "") && Shaped(e.screen) && e.screen.cols == t.cols
    && at < t.rows && Stands(e.screen, at, e.column, e.mark, GridMarks(t.grid[..at])) && Missing(t, at, e.column, e.mark)
  }

  predicate Missing(t: Screen, at: nat, column: nat, mark: string)
    requires Shaped(t) && at < t.rows
  {
    column < t.cols && !(mark <= t.grid[at][column]) && 0 < Marks(mark)
  }

  lemma RuinsAfter(m: Metrics, s: Screen, front: string, r: Screen, t: Screen, text: string, e: Slip, at: nat)
    requires Shaped(s) && Shaped(r) && Shaped(t) && Drain(m, s, front) == Receiver(r, "") && Ruins(m, r, t, text, e, at)
    ensures Ruins(m, s, t, front + text, e.(done := front + e.done), at)
  {
    hide Drain, Shaped, Stands, Missing, GridMarks;
    FedBoth(m, s, front, e.done);
    Assoc(front, e.done, e.rest);
  }

  /** One row goes wrong. */
  lemma SlipRuins(m: Metrics, s: Screen, t: Screen, e: Slip, text: string, back: string)
    requires Shaped(s) && Shaped(t) && s.cols == t.cols && s.rows == t.rows && Shows(s, t, s.y)
    requires Slips(m, s, text, t.grid[s.y], e)
    ensures Ruins(m, s, t, text + back, e.(rest := e.rest + back), s.y)
  {
    hide Drain, Marks, GridMarks;
    Assoc(e.done, e.rest, back);
    assert e.screen.grid[..s.y] == t.grid[..s.y] by {
      forall j | 0 <= j < s.y ensures s.grid[j] == t.grid[j] {
        assert RowShown(s.grid[j], s.styles[j], t.grid[j], t.styles[j]);
      }
      assert s.grid[..s.y] == t.grid[..s.y];
    }
  }

  lemma IllegibleCell(m: Metrics, row: Row) returns (k: nat)
    requires Tiled(m, row) && !Legible(m, row)
    ensures k < |row| && !LegibleAt(m, row, k) && Boundary(row, 0)
  {
    hide LegibleAt, GlyphAt;
    k :| k < |row| && !LegibleAt(m, row, k);
  }

  lemma RowRuins(m: Metrics, s: Screen, t: Screen, back: string) returns (e: Slip)
    requires Measures(m) && Shaped(s) && Shaped(t) && s.cols == t.cols && s.rows == t.rows && s.x == 0 && Shows(s, t, s.y)
    requires Tiled(m, t.grid[s.y]) && Grown(m, t.grid[s.y]) && StylesReplay(t) && !Legible(m, t.grid[s.y])
    ensures Ruins(m, s, t, AnsiRow(t.grid[s.y], t.styles[s.y]) + back, e, s.y)
  {
    hide Drain, Tiled, Grown, LegibleAt, Legible, Replays, Ink, Slips, Shows, Ruins;
    var row, inks := t.grid[s.y], t.styles[s.y];
    var k := IllegibleCell(m, row);
    assert s.grid[s.y][..0] == row[..0];
    e := RowSlips(m, s, row, inks, 0, k);
    SlipRuins(m, s, t, e, Ink(row, inks, 0), Sgr("0") + back);
    assert Ink(row, inks, 0) + (Sgr("0") + back) == AnsiRow(row, inks) + back;
    e := e.(rest := e.rest + (Sgr("0") + back));
  }

  lemma BreakFedAlone(m: Metrics, s: Screen, t: Screen)
    requires Shaped(s) && Shaped(t) && s.cols == t.cols && s.rows == t.rows && s.y + 1 < s.rows && Shows(s, t, s.y + 1)
    ensures var r := s.(x := 0, y := s.y + 1); Shaped(r) && Shows(r, t, r.y) && Drain(m, s, "\r\n") == Receiver(r, "")
  {
    hide RowShown, Drain;
    var r := s.(x := 0, y := s.y + 1);
    assert "\r\n" + "" == "\r\n";
    LineBreakFed(m, s, "");
    DrainOne(m, r, "");
  }

  lemma RowBreakFed(m: Metrics, s: Screen, t: Screen) returns (r: Screen)
    requires Shaped(s) && Shaped(t) && s.cols == t.cols && s.rows == t.rows && s.x == 0 && s.y + 1 < s.rows
    requires Legible(m, t.grid[s.y]) && StylesReplay(t) && Shows(s, t, s.y)
    ensures Shaped(r) && r.cols == s.cols && r.rows == s.rows && r.y == s.y + 1 && r.x == 0 && Shows(r, t, r.y)
    ensures Drain(m, s, AnsiRow(t.grid[s.y], t.styles[s.y]) + "\r\n") == Receiver(r, "")
  {
    hide Drain, Legible, Replays, AnsiRow, Shows, StylesReplay, RowsShaped;
    var next := AnsiRowFed(m, s, t, "\r\n");
    BreakFedAlone(m, next, t);
    r := next.(x := 0, y := s.y + 1);
  }

  lemma RowOf(m: Metrics, t: Screen, k: nat)
    requires Shaped(t) && AllTiled(m, t) && AllGrown(m, t) && k < t.rows
    ensures Tiled(m, t.grid[k]) && Grown(m, t.grid[k])
  {
  }

  lemma RowText(t: Screen, k: nat)
    requires Shaped(t) && k < t.rows
    ensures var rest := Join(AnsiRows(t)[k + 1..], "\r\n"); var line := AnsiRow(t.grid[k], t.styles[k]);
            Join(AnsiRows(t)[k..], "\r\n") == if k + 1 == t.rows then line + "" else line + "\r\n" + rest
  {
    hide AnsiRow, Join;
    JoinFrom(AnsiRows(t), k, "\r\n");
  }

  /** A screen with an illegible row goes wrong at the first such row. */
  lemma {:induction false} ScreenRuins(m: Metrics, s: Screen, t: Screen, y: nat) returns (e: Slip, at: nat)
    requires Measures(m) && Shaped(s) && Shaped(t) && s.cols == t.cols && s.rows == t.rows && s.x == 0 && Shows(s, t, s.y)
    requires AllTiled(m, t) && AllGrown(m, t) && StylesReplay(t) && s.y <= y < t.rows && !Legible(m, t.grid[y])
    ensures Ruins(m, s, t, Join(AnsiRows(t)[s.y..], "\r\n"), e, at)
    decreases t.rows - s.y
  {
    hide Drain, AllTiled, AllGrown, Tiled, Grown, Legible, Replays, StylesReplay, AnsiRow, AnsiRows, Join, Shows, Ruins;
    var k := s.y;
    RowOf(m, t, k);
    RowText(t, k);
    var line, rest := AnsiRow(t.grid[k], t.styles[k]), Join(AnsiRows(t)[k + 1..], "\r\n");
    if Legible(m, t.grid[k]) {
      var r := RowBreakFed(m, s, t);
      e, at := ScreenRuins(m, r, t, y);
      RuinsAfter(m, s, line + "\r\n", r, t, rest, e, at);
      e := e.(done := line + "\r\n" + e.done);
    } else {
      at := k;
      if k + 1 == t.rows {
        e := RowRuins(m, s, t, "");
      } else {
        e := RowRuins(m, s, t, "\r\n" + rest);
        assert line + ("\r\n" + rest) == line + "\r\n" + rest;
      }
    }
  }

  /** What stands where the screen has something else can never be that screen again, unless marks were lost. */
  lemma StandsDiffers(s: Screen, t: Screen, r: nat, q: nat, u: string, at: nat)
    requires Shaped(s) && Shaped(t) && s.cols == t.cols && r <= at < t.rows && Missing(t, at, q, u)
    requires Stands(s, r, q, u, GridMarks(t.grid[..at]))
    ensures s.grid != t.grid
  {
    hide Marks, RowMarks;
    if s.grid == t.grid && r < at {
      PrefixInCell(u, t.grid[r][q]);
      CellInRow(t.grid[r], q);
      assert t.grid[..r + 1] == t.grid[..r] + [t.grid[r]];
      TotalOfBoth(RowMarks, t.grid[..r], [t.grid[r]]);
      TotalOfOne(RowMarks, t.grid[r]);
      TotalOfPrefix(RowMarks, t.grid, r + 1, at);
    }
  }

  /** Whatever is fed after the slip, the screen does not come back. */
  lemma RuinedForGood(m: Metrics, s: Screen, t: Screen, text: string, e: Slip, at: nat)
    requires Shaped(s) && Shaped(t) && s.cols == t.cols && Ruins(m, s, t, text, e, at) && Plain(text)
    requires GridMarks(s.grid) + Drawn(text) == GridMarks(t.grid)
    ensures Drain(m, s, text).screen.grid != t.grid
  {
    hide Drain, Marks, GridMarks, Stands, Missing, Plain, Drawn;
    PlainSplit(m, s, e.done, e.rest);
    FedBoth(m, s, e.done, e.rest);
    RunMarks(m, s, e.done);
    RunMarks(m, e.screen, e.rest);
    MissingMarked(t, at, e.column, e.mark);
    var r := RunStands(m, e.screen, e.rest, at, e.column, e.mark, GridMarks(t.grid[..at]));
    var end := Drain(m, e.screen, e.rest).screen;
    if Stands(end, r, e.column, e.mark, GridMarks(t.grid[..at])) {
      StandsDiffers(end, t, r, e.column, e.mark, at);
    }
  }

  lemma MissingMarked(t: Screen, at: nat, column: nat, mark: string)
    requires Shaped(t) && at < t.rows && Missing(t, at, column, mark)
    ensures 0 < Marks(mark)
  {
  }

  /** The snapshot of a screen of grown cells, fed line by line to an empty screen of the same size, gives back the same cells
      exactly when every cell is composed as a typist can compose it and no glyph joins the one on its left. */
  lemma SnapshotReturns(m: Metrics, t: Screen)
    requires Measures(m) && Shaped(t) && StylesReplay(t) && AllTiled(m, t) && AllGrown(m, t)
    ensures var r := Drain(m, Fresh(t.cols, t.rows), Join(AnsiRows(t), "\r\n")).screen;
            && (r.grid == t.grid <==> AllTyped(m, t) && AllApart(m, t))
            && (r.grid == t.grid ==> Ansi(r) == Ansi(t))
  {
    hide Drain, AllTiled, AllGrown, AllTyped, AllApart, StylesReplay, AnsiRows, Join, Shows, Ruins, Plain, Drawn;
    TypedIsLegible(m, t);
    if AllLegible(m, t) {
      hide AllLegible;
      SnapshotRoundTrip(m, t);
    } else {
      var y: nat :| y < |t.grid| && !Legible(m, t.grid[y]);
      hide AllLegible, Legible;
      var s := Fresh(t.cols, t.rows);
      FreshMarks(t.cols, t.rows);
      FreshShaped(t.cols, t.rows);
      NothingShown(s, t);
      PlainRows(m, t, 0);
      assert AnsiRows(t)[0..] == AnsiRows(t) && t.grid[0..] == t.grid;
      var e, at := ScreenRuins(m, s, t, y);
      RuinedForGood(m, s, t, Join(AnsiRows(t), "\r\n"), e, at);
    }
  }

  lemma NothingShown(s: Screen, t: Screen)
    requires Shaped(s) && Shaped(t) && s.cols == t.cols && s.rows == t.rows
    ensures Shows(s, t, 0)
  {
  }

  /** After any aligned input: what it drew comes back from its snapshot exactly when its cells are composed and apart. */
  lemma AlignedSnapshotReturns(m: Metrics, cols: nat, rows: nat, p: string)
    requires Measures(m) && 2 <= cols && 1 <= rows && AlignedRun(m, Fresh(cols, rows), p)
    ensures var t := Drain(m, Fresh(cols, rows), p).screen;
            var r := Drain(m, Fresh(cols, rows), Join(AnsiRows(t), "\r\n")).screen;
            && (r.grid == t.grid <==> AllTyped(m, t) && AllApart(m, t))
            && (r.grid == t.grid ==> Ansi(r) == Ansi(t))
  {
    hide Drain, AlignedRun, AllTiled, AllTyped, AllApart, AllGrown, StylesReplay, Ansi, AnsiRows, Join, Fresh, Shaped;
    FreshTyped(m, cols, rows);
    FreshReplays(cols, rows);
    RunTiled(m, Fresh(cols, rows), p);
    RunGrown(m, Fresh(cols, rows), p);
    DrainStylesReplay(m, Fresh(cols, rows), p);
    SnapshotReturns(m, Drain(m, Fresh(cols, rows), p).screen);
  }

  lemma {:induction false} TypedIsAligned(m: Metrics, s: Screen, p: string)
    requires Shaped(s) && TypedRun(m, s, p)
    ensures AlignedRun(m, s, p)
    decreases |p|
  {
    hide Step, Next, Aligned;
    if p != [] && Next(p).Lexeme? { TypedIsAligned(m, Step(m, s, Next(p).token), p[Next(p).size..]); }
  }

  /** What typed input draws comes back from its snapshot exactly when no two neighbours join. */
  lemma TypedSnapshotRoundTrip(m: Metrics, cols: nat, rows: nat, p: string)
    requires Measures(m) && 2 <= cols && 1 <= rows && TypedRun(m, Fresh(cols, rows), p)
    ensures var t := Drain(m, Fresh(cols, rows), p).screen;
            var r := Drain(m, Fresh(cols, rows), Join(AnsiRows(t), "\r\n")).screen;
            && (r.grid == t.grid <==> AllApart(m, t))
            && (r.grid == t.grid ==> Ansi(r) == Ansi(t))
  {
    hide Drain, TypedRun, AlignedRun, AllTiled, AllTyped, AllApart, AllGrown, Ansi, AnsiRows, Join, Fresh, Shaped;
    FreshTyped(m, cols, rows);
    TypedIsAligned(m, Fresh(cols, rows), p);
    RunTyped(m, Fresh(cols, rows), p);
    AlignedSnapshotReturns(m, cols, rows, p);
  }

  // ---------------------------------------------------------------------------
  // One that is lost

  /** One row of two cells. */
  function Small(left: string, right: string, x: nat): Screen {
    Screen(2, 1, [[left, right]], [["", ""]], "", x, 0, 0, [])
  }

  lemma SmallIsFresh()
    ensures Fresh(2, 1) == Small(" ", " ", 0)
  {
    assert BlankRow(2, " ") == [" ", " "] && BlankRow(2, "") == ["", ""];
    assert BlankRows(1, 2, " ") == [[" ", " "]] && BlankRows(1, 2, "") == [["", ""]];
  }

  /** A wide character, on an empty row. */
  lemma WidePrinted(m: Metrics, c: char)
    requires Printable(c) && m.width([c]) == 2
    ensures Shaped(Small(" ", " ", 0)) && Shaped(Small([c], "", 2)) && Char(m, Small(" ", " ", 0), c) == Small([c], "", 2)
  {
    assert Placed([" ", " "], 0, [c], 2) == [[c], ""] && ["", ""][0 := ""] == ["", ""];
    assert [[" ", " "]][0 := [[c], ""]] == [[[c], ""]] && [["", ""]][0 := ["", ""]] == [["", ""]];
  }

  /** A character without width, typed with the cursor on the wide one's second cell. */
  lemma ThinPrinted(m: Metrics, c: char, z: char)
    requires Printable(z) && m.width([z]) == 0 && !JoinsAfter(m, [c], z)
    ensures Shaped(Small([c], "", 1)) && Char(m, Small([c], "", 1), z) == Small([c, z], "", 1)
  {
    var row := [[c], ""];
    assert Before(row, 1) == 0 && [c] + [z] == [c, z];
    assert row[0 := [c, z]] == [[c, z], ""];
    assert [row][0 := [[c, z], ""]] == [[[c, z], ""]];
    assert [["", ""]][0 := ["", ""]] == [["", ""]];
  }

  lemma SteppedBack(m: Metrics, c: char)
    ensures Shaped(Small([c], "", 2)) && Char(m, Small([c], "", 2), BACKSPACE) == Small([c], "", 1)
  {
  }

  lemma ThreeFed(m: Metrics, s: Screen, a: char, b: char, c: char)
    requires Shaped(s) && a != ESC && b != ESC && c != ESC
    ensures Drain(m, s, [a, b, c]) == Receiver(Char(m, Char(m, Char(m, s, a), b), c), "")
  {
    hide Drain, Char, Shaped;
    assert [a, b, c] == [a] + ([b] + ([c] + ""));
    CharFed(m, s, a, [b] + ([c] + ""));
    CharFed(m, Char(m, s, a), b, [c] + "");
    CharFed(m, Char(m, Char(m, s, a), b), c, "");
    DrainOne(m, Char(m, Char(m, Char(m, s, a), b), c), "");
  }

  lemma SmallTyped(m: Metrics, c: char, z: char)
    requires Printable(c) && m.width([c]) == 2 && Printable(z) && m.width([z]) == 0 && !JoinsAfter(m, [c], z)
    ensures Shaped(Fresh(2, 1)) && Drain(m, Fresh(2, 1), [c, BACKSPACE, z]) == Receiver(Small([c, z], "", 1), "")
  {
    hide Drain, Char, Fresh, Small, Shaped, JoinsAfter;
    SmallIsFresh();
    WidePrinted(m, c);
    SteppedBack(m, c);
    ThinPrinted(m, c, z);
    ThreeFed(m, Small(" ", " ", 0), c, BACKSPACE, z);
  }

  /** Such a row is tiled, grown and apart, but its glyph cannot be typed in one go. */
  lemma SmallIsNotTyped(m: Metrics, c: char, z: char)
    requires Printable(c) && m.width([c]) == 2
    requires Printable(z) && m.width([z]) == 0 && m.width([c, z]) == 2 && !JoinsAfter(m, [c], z)
    ensures var s := Small([c, z], "", 1);
            Shaped(s) && StylesReplay(s) && AllTiled(m, s) && AllGrown(m, s) && AllApart(m, s) && !AllTyped(m, s)
  {
    var s, g := Small([c, z], "", 1), [c, z];
    assert g[..1] == [c] && g[..2] == g && [c] + [z] == g;
    OneGrown(m, c, 2);
    GrownMore(m, [c], z, 2);
    assert !GrowsAt(m, g, 1) && !CellTyped(m, s.grid[0], 0);
    assert Grown(m, s.grid[0]) && Tiled(m, s.grid[0]) && NeighboursApart(m, s.grid[0]) && !RowTyped(m, s.grid[0]);
    assert Replays("");
  }

  /** Appending to a wide glyph is lost: the row is tiled and nothing in it joins, but typed again the character without width
      lands on the glyph's second cell. */
  lemma WideAppendIsLost(m: Metrics, c: char, z: char)
    requires Measures(m) && Printable(c) && m.width([c]) == 2
    requires Printable(z) && m.width([z]) == 0 && m.width([c, z]) == 2 && !JoinsAfter(m, [c], z)
    ensures var t := Drain(m, Fresh(2, 1), [c, BACKSPACE, z]).screen;
            && AllTiled(m, t) && AllApart(m, t)
            && Drain(m, Fresh(2, 1), Join(AnsiRows(t), "\r\n")).screen.grid != t.grid
  {
    hide Drain, AnsiRows, Fresh, Shaped, Join, AllTiled, AllApart, AllTyped, AllGrown, StylesReplay;
    SmallTyped(m, c, z);
    SmallIsNotTyped(m, c, z);
    SnapshotReturns(m, Small([c, z], "", 1));
  }
}
