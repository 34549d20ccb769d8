/** When the layout and the receiver measure a row alike, and what the row then looks like: it is enough that every glyph that is
    drawn is one the receiver would compose in its cells, that it stays inside the row on the way, and that no two that end up side
    by side would merge. Styles and links never disturb it. */
module Layout {
  import opened Strings
  import opened Terminal
  import opened Chunking
  import opened Snapshot
  import opened Renderer
  import opened Redraw

  /** One glyph on the screen: its text, its cells and its style. */
  datatype Glyph = Glyph(text: string, width: nat, style: string)

  /** A tab reaches the renderer as four blanks in one piece. */
  const TAB: string := "    "

  /** One grapheme of the layout as the pieces it is drawn in. */
  function Pieces(cell: Renderer.Cell, style: string): seq<Glyph> {
    if cell.text == TAB then
      var blank := Glyph(" ", 1, style);
      [blank, blank, blank, blank]
    else [Glyph(cell.text, cell.width, style)]
  }

  predicate SoundCell(cell: Renderer.Cell) {
    cell.text != "" && (cell.text == TAB ==> cell.width == 4)
  }

  /** `style` switches on a style and `link` is printable, as the host's helpers make them. */
  predicate SoundSpan(span: Span) {
    && Replays(span.style)
    && (span.link.Some? ==> forall k :: 0 <= k < |span.link.value| ==> Printable(span.link.value[k]))
    && forall i :: 0 <= i < |span.cells| ==> SoundCell(span.cells[i])
  }

  /** The pieces of a span that fit in `room`, line breaks dropped. */
  function Kept(cells: seq<Renderer.Cell>, style: string, room: nat): seq<Glyph> {
    if cells == [] then []
    else if cells[0].text == "\n" then Kept(cells[1..], style, room)
    else if cells[0].width > room then []
    else Pieces(cells[0], style) + Kept(cells[1..], style, room - cells[0].width)
  }

  /** The pieces of a row that are written: of every span what fits in the room left. */
  function KeptLine(line: Line, room: nat): seq<Glyph>
    decreases |line|
  {
    if line == [] then []
    else
      var taken := TakeCells(line[0].cells, room);
      if taken.text == "" then KeptLine(line[1..], room - taken.width)
      else
        Kept(line[0].cells, line[0].style, room) + (if taken.width == room then [] else KeptLine(line[1..], room - taken.width))
  }

  /** A piece without width belongs to the glyph on its left, whatever span that is from. */
  function Laid(glyphs: seq<Glyph>, piece: Glyph): seq<Glyph> {
    var n := |glyphs|;
    if piece.width == 0 && n > 0 then glyphs[n - 1 := glyphs[n - 1].(text := glyphs[n - 1].text + piece.text)] else glyphs + [piece]
  }

  function LaidAll(glyphs: seq<Glyph>, pieces: seq<Glyph>): seq<Glyph>
    decreases |pieces|
  {
    if pieces == [] then glyphs else LaidAll(Laid(glyphs, pieces[0]), pieces[1..])
  }

  function GlyphsOfLine(line: Line, room: nat): seq<Glyph> { LaidAll([], KeptLine(line, room)) }

  function TextsOf(glyphs: seq<Glyph>): string {
    if glyphs == [] then "" else glyphs[0].text + TextsOf(glyphs[1..])
  }

  function WidthsOf(glyphs: seq<Glyph>): nat {
    if glyphs == [] then 0 else WidthsOf(glyphs[..|glyphs| - 1]) + glyphs[|glyphs| - 1].width
  }

  /** The glyph can be typed, is as wide as the layout says, stays left of column `room` on the way, and does not merge with the one
      on its left. */
  predicate SoundAt(m: Metrics, glyphs: seq<Glyph>, i: nat, room: nat)
    requires i < |glyphs|
  {
    var t := glyphs[i].text;
    && Composed(m, t) && glyphs[i].width == m.width(t) >= 1
    && (forall j :: 1 <= j <= |t| ==> WidthsOf(glyphs[..i]) + m.width(t[..j]) <= room)
    && (0 < i ==> !JoinsAfter(m, glyphs[i - 1].text, t[0]))
  }

  predicate SoundRow(m: Metrics, glyphs: seq<Glyph>, room: nat) {
    forall i :: 0 <= i < |glyphs| ==> SoundAt(m, glyphs, i, room)
  }

  /** Every glyph of the row that is drawn is sound, and its styles and links are. */
  predicate SoundLine(m: Metrics, line: Line, room: nat) {
    (forall i :: 0 <= i < |line| ==> SoundSpan(line[i])) && SoundRow(m, GlyphsOfLine(line, room), room)
  }

  /** Glyphs as screen cells: a lead cell, and empty cells for the rest of its width. */
  function CellRow(glyphs: seq<Glyph>): Row {
    if glyphs == [] then []
    else
      var g := glyphs[|glyphs| - 1];
      CellRow(glyphs[..|glyphs| - 1]) + [g.text] + BlankRow(if g.width == 0 then 0 else g.width - 1, "")
  }

  /** Their styles: each on the lead cell. */
  function InkRow(glyphs: seq<Glyph>): Row {
    if glyphs == [] then []
    else
      var g := glyphs[|glyphs| - 1];
      InkRow(glyphs[..|glyphs| - 1]) + [g.style] + BlankRow(if g.width == 0 then 0 else g.width - 1, "")
  }

  lemma {:induction false} PaintBoth(m: Metrics, a: Painted, front: string, back: string)
    requires PenShaped(a.pen) && Paint(m, a, front).Some?
    ensures Paint(m, a, front + back) == Paint(m, Paint(m, a, front).value, back)
    decreases |front|
  {
    hide Next, PaintToken;
    if front == "" {
      assert front + back == back;
    } else {
      NextOfLongerInput(front, back);
      var size := Next(front).size;
      assert (front + back)[size..] == front[size..] + back;
      PaintBoth(m, PaintToken(m, a, Next(front).token).value, front[size..], back);
    }
  }

  lemma PaintChar(m: Metrics, a: Painted, c: char)
    requires PenShaped(a.pen) && Printable(c)
    ensures Paint(m, a, [c]) == PaintToken(m, a, Single(c))
  {
  }

  lemma PaintControl(m: Metrics, a: Painted, text: string, i: nat)
    requires PenShaped(a.pen) && ControlSequence(text, i)
    ensures Paint(m, a, text) == PaintToken(m, a, Control(text[2..|text| - 1], text[|text| - 1]))
  {
    hide PaintToken;
    assert text[..|text|] == text;
    ControlTokenIsControlSequence(text, |text|);
    PaintOneToken(m, a, text);
  }

  lemma PaintOneToken(m: Metrics, a: Painted, text: string)
    requires PenShaped(a.pen) && text != "" && Next(text).Lexeme? && Next(text).size == |text|
    ensures Paint(m, a, text) == PaintToken(m, a, Next(text).token)
  {
    hide PaintToken, Next;
  }

  // ---------------------------------------------------------------------------
  // Pieces make glyphs

  /** Laying pieces down moves no text and no width. */
  lemma {:induction false} LaidKeeps(glyphs: seq<Glyph>, pieces: seq<Glyph>)
    ensures var r := LaidAll(glyphs, pieces);
            TextsOf(r) == TextsOf(glyphs) + TextsOf(pieces) && WidthsOf(r) == WidthsOf(glyphs) + WidthsOf(pieces)
    decreases |pieces|
  {
    hide Laid, TextsOf, WidthsOf;
    OfNothing();
    if pieces == [] {
      assert TextsOf(glyphs) + "" == TextsOf(glyphs);
    } else {
      var p := pieces[0];
      OfOne(p);
      OfBoth([p], pieces[1..]);
      assert [p] + pieces[1..] == pieces;
      LaidOne(glyphs, p);
      LaidKeeps(Laid(glyphs, p), pieces[1..]);
      assert TextsOf(glyphs) + p.text + TextsOf(pieces[1..]) == TextsOf(glyphs) + (p.text + TextsOf(pieces[1..]));
    }
  }

  lemma OfNothing()
    ensures TextsOf([]) == "" && WidthsOf([]) == 0
  {
  }

  lemma OfOne(g: Glyph)
    ensures TextsOf([g]) == g.text && WidthsOf([g]) == g.width
  {
    assert [g][1..] == [] && [g][..0] == [] && g.text + "" == g.text;
  }

  lemma {:induction false} TextsOfBoth(a: seq<Glyph>, b: seq<Glyph>)
    ensures TextsOf(a + b) == TextsOf(a) + TextsOf(b)
  {
    if a == [] {
      assert a + b == b;
    } else {
      assert (a + b)[1..] == a[1..] + b;
      TextsOfBoth(a[1..], b);
    }
  }

  lemma {:induction false} WidthsOfBoth(a: seq<Glyph>, b: seq<Glyph>)
    ensures WidthsOf(a + b) == WidthsOf(a) + WidthsOf(b)
    decreases |b|
  {
    if b == [] {
      assert a + b == a;
    } else {
      assert (a + b)[..|a + b| - 1] == a + b[..|b| - 1];
      WidthsOfBoth(a, b[..|b| - 1]);
    }
  }

  lemma OfBoth(a: seq<Glyph>, b: seq<Glyph>)
    ensures TextsOf(a + b) == TextsOf(a) + TextsOf(b) && WidthsOf(a + b) == WidthsOf(a) + WidthsOf(b)
  {
    TextsOfBoth(a, b);
    WidthsOfBoth(a, b);
  }

  lemma LaidOne(glyphs: seq<Glyph>, p: Glyph)
    ensures var r := Laid(glyphs, p); TextsOf(r) == TextsOf(glyphs) + p.text && WidthsOf(r) == WidthsOf(glyphs) + p.width
  {
    hide TextsOf, WidthsOf;
    var n := |glyphs|;
    if p.width == 0 && n > 0 {
      var front, last := glyphs[..n - 1], glyphs[n - 1];
      var more := last.(text := last.text + p.text);
      assert glyphs == front + [last] && Laid(glyphs, p) == front + [more];
      OfBoth(front, [last]);
      OfBoth(front, [more]);
      OfOne(last);
      OfOne(more);
      assert TextsOf(front) + last.text + p.text == TextsOf(front) + (last.text + p.text);
    } else {
      OfOne(p);
      OfBoth(glyphs, [p]);
    }
  }

  lemma {:induction false} LaidBoth(glyphs: seq<Glyph>, a: seq<Glyph>, b: seq<Glyph>)
    ensures LaidAll(glyphs, a + b) == LaidAll(LaidAll(glyphs, a), b)
    decreases |a|
  {
    hide Laid;
    if a == [] {
      assert a + b == b;
    } else {
      assert (a + b)[1..] == a[1..] + b;
      LaidBoth(Laid(glyphs, a[0]), a[1..], b);
    }
  }

  /** Later pieces only add to the last glyph and after it. */
  predicate Extends(glyphs: seq<Glyph>, more: seq<Glyph>) {
    glyphs != [] ==>
      var n := |glyphs|;
      && n <= |more| && more[..n - 1] == glyphs[..n - 1]
      && glyphs[n - 1].text <= more[n - 1].text && glyphs[n - 1].style == more[n - 1].style
  }

  lemma {:induction false} LaidExtends(glyphs: seq<Glyph>, pieces: seq<Glyph>)
    ensures Extends(glyphs, LaidAll(glyphs, pieces))
    decreases |pieces|
  {
    if pieces != [] {
      var next, all := Laid(glyphs, pieces[0]), LaidAll(glyphs, pieces);
      LaidExtends(next, pieces[1..]);
      if glyphs != [] {
        var n := |glyphs|;
        assert all[..n - 1] == all[..|next| - 1][..n - 1];
        if |next| > n { assert all[n - 1] == all[..n][n - 1] == next[n - 1]; }
      }
    }
  }

  // ---------------------------------------------------------------------------
  // One glyph

  /** The cells left of where the next glyph starts are those of `done`, each in its style. */
  predicate Left(a: Painted, done: seq<Glyph>) {
    var n := |CellRow(done)|;
    && PenShaped(a.pen) && n == |InkRow(done)| <= |a.pen.cells|
    && a.pen.cells[..n] == CellRow(done) && a.pen.inks[..n] == InkRow(done)
    && forall k :: 0 <= k < n && a.pen.cells[k] != "" ==> k in a.inked
  }

  /** The cursor is at column `x`, nothing is styled from there on, and nothing is written from `room` on. */
  predicate Free(a: Painted, x: nat, room: nat) {
    && PenShaped(a.pen) && a.pen.x == x <= room <= |a.pen.cells|
    && (forall k :: x <= k < |a.pen.inks| ==> a.pen.inks[k] == "")
    && BlankFrom(a, room)
  }

  /** A row painted up to the cursor with exactly these glyphs. */
  predicate Front(a: Painted, done: seq<Glyph>, room: nat) {
    Left(a, done) && Free(a, |CellRow(done)|, room)
  }

  lemma FrontIsShaped(a: Painted, done: seq<Glyph>, room: nat)
    requires Front(a, done, room)
    ensures PenShaped(a.pen) && a.pen.x == |CellRow(done)| <= room <= |a.pen.cells|
  {
  }

  lemma LastGlyph(done: seq<Glyph>, g: Glyph)
    requires g.width >= 1
    ensures CellRow(done + [g]) == CellRow(done) + [g.text] + BlankRow(g.width - 1, "")
    ensures InkRow(done + [g]) == InkRow(done) + [g.style] + BlankRow(g.width - 1, "")
  {
    assert (done + [g])[..|done|] == done;
  }

  /** The glyph at `p` as far as it is written: `g`, its empty cells, the cursor after them, no style from there on. */
  predicate Building(m: Metrics, a: Painted, p: nat, g: string, style: string, room: nat) {
    && Free(a, p + m.width(g), room) && p in a.inked && p < room && a.pen.cells[p] == g && a.pen.inks[p] == style
    && (forall k :: p < k < a.pen.x ==> a.pen.cells[k] == "")
    && (forall k :: p < k < a.pen.x ==> a.pen.inks[k] == "")
  }

  /** `b` has the cells and the styles of `a` left of `p`. */
  predicate SameLeft(a: Painted, b: Painted, p: nat) {
    && PenShaped(a.pen) && PenShaped(b.pen) && p <= |a.pen.cells| == |b.pen.cells| && a.inked <= b.inked && a.style == b.style
    && a.pen.cells[..p] == b.pen.cells[..p] && a.pen.inks[..p] == b.pen.inks[..p]
  }

  lemma LeftKept(a: Painted, b: Painted, done: seq<Glyph>)
    requires Left(a, done) && SameLeft(a, b, |CellRow(done)|)
    ensures Left(b, done)
  {
    hide CellRow, InkRow;
    var n := |CellRow(done)|;
    forall k | 0 <= k < n && b.pen.cells[k] != "" ensures k in b.inked {
      assert b.pen.cells[..n][k] == a.pen.cells[..n][k];
    }
  }

  lemma StillBlank(a: Painted, b: Painted, limit: nat)
    requires PenShaped(a.pen) && PenShaped(b.pen) && |a.pen.cells| == |b.pen.cells| && BlankFrom(a, limit)
    requires forall k :: limit <= k < |a.pen.cells| ==> a.pen.cells[k] == b.pen.cells[k] && a.pen.inks[k] == b.pen.inks[k]
    ensures BlankFrom(b, limit)
  {
  }

  lemma JoinPainted(m: Metrics, a: Painted, p: nat, g: string, style: string, c: char, room: nat) returns (b: Painted)
    requires Building(m, a, p, g, style, room) && g != "" && 1 <= m.width(g)
    requires JoinsAfter(m, g, c) && 1 <= m.width(g + [c]) && p + m.width(g + [c]) <= room
    ensures Printable(c) && PaintToken(m, a, Single(c)) == Some(b) && Building(m, b, p, g + [c], style, room) && SameLeft(a, b, p)
  {
    assert Before(a.pen.cells, a.pen.x) == p;
    hide BlankFrom, Before;
    b := PaintToken(m, a, Single(c)).value;
    StillBlank(a, b, room);
  }

  lemma AppendPainted(m: Metrics, a: Painted, p: nat, g: string, style: string, c: char, room: nat) returns (b: Painted)
    requires Building(m, a, p, g, style, room) && g != "" && !JoinsAfter(m, g, c)
    requires Printable(c) && m.width([c]) == 0 && m.width(g) == 1 == m.width(g + [c])
    ensures PaintToken(m, a, Single(c)) == Some(b) && Building(m, b, p, g + [c], style, room) && SameLeft(a, b, p)
  {
    assert Before(a.pen.cells, a.pen.x) == p;
    hide BlankFrom, Before;
    b := PaintToken(m, a, Single(c)).value;
    StillBlank(a, b, room);
  }

  lemma GrowsThere(m: Metrics, glyphs: seq<Glyph>, i: nat, j: nat, room: nat)
    requires SoundRow(m, glyphs, room) && i < |glyphs| && 1 <= j < |glyphs[i].text|
    ensures var t := glyphs[i].text; GrowsAt(m, t, j) && 1 <= m.width(t[..j]) && WidthsOf(glyphs[..i]) + m.width(t[..j + 1]) <= room
  {
    hide WidthsOf, JoinsAfter;
    assert SoundAt(m, glyphs, i, room);
    var t := glyphs[i].text;
    assert GrowsAt(m, t, j) && (1 < j ==> GrowsAt(m, t, j - 1));
  }

  lemma GrowthPainted(m: Metrics, a: Painted, p: nat, t: string, style: string, j: nat, room: nat) returns (b: Painted)
    requires 1 <= j < |t| && GrowsAt(m, t, j) && 1 <= m.width(t[..j]) && p + m.width(t[..j + 1]) <= room
    requires Building(m, a, p, t[..j], style, room)
    ensures Printable(t[j]) && PaintToken(m, a, Single(t[j])) == Some(b)
    ensures Building(m, b, p, t[..j + 1], style, room) && SameLeft(a, b, p)
  {
    hide Building, PaintToken, SameLeft;
    assert t[..j] + [t[j]] == t[..j + 1];
    if JoinsAfter(m, t[..j], t[j]) {
      b := JoinPainted(m, a, p, t[..j], style, t[j], room);
    } else {
      b := AppendPainted(m, a, p, t[..j], style, t[j], room);
    }
  }

  lemma PaintNothing(m: Metrics, a: Painted)
    requires PenShaped(a.pen)
    ensures Paint(m, a, "") == Some(a)
  {
  }

  // ---------------------------------------------------------------------------
  // One piece

  /** The row is painted up to and with the first `j` characters of glyph `i`. */
  predicate Within(m: Metrics, a: Painted, glyphs: seq<Glyph>, i: nat, j: nat, room: nat) {
    && i < |glyphs| && 1 <= j <= |glyphs[i].text|
    && Left(a, glyphs[..i]) && Building(m, a, |CellRow(glyphs[..i])|, glyphs[i].text[..j], glyphs[i].style, room)
  }

  lemma {:induction false} CellsAreWidths(glyphs: seq<Glyph>)
    requires forall i :: 0 <= i < |glyphs| ==> glyphs[i].width >= 1
    ensures |CellRow(glyphs)| == |InkRow(glyphs)| == WidthsOf(glyphs)
  {
    if glyphs != [] { CellsAreWidths(glyphs[..|glyphs| - 1]); }
  }

  lemma SoundWidths(m: Metrics, glyphs: seq<Glyph>, i: nat, room: nat)
    requires SoundRow(m, glyphs, room) && i <= |glyphs|
    ensures |CellRow(glyphs[..i])| == |InkRow(glyphs[..i])| == WidthsOf(glyphs[..i])
  {
    hide CellRow, InkRow, WidthsOf, Composed, JoinsAfter;
    forall k | 0 <= k < i ensures glyphs[..i][k].width >= 1 { assert SoundAt(m, glyphs, k, room); }
    CellsAreWidths(glyphs[..i]);
  }

  lemma WithinShaped(m: Metrics, a: Painted, glyphs: seq<Glyph>, i: nat, j: nat, room: nat)
    requires Within(m, a, glyphs, i, j, room)
    ensures PenShaped(a.pen) && i < |glyphs| && j <= |glyphs[i].text|
  {
  }

  lemma OneGrowth(m: Metrics, a: Painted, glyphs: seq<Glyph>, i: nat, j: nat, room: nat) returns (b: Painted)
    requires SoundRow(m, glyphs, room) && Within(m, a, glyphs, i, j, room) && j < |glyphs[i].text|
    ensures Printable(glyphs[i].text[j]) && PaintToken(m, a, Single(glyphs[i].text[j])) == Some(b)
    ensures Within(m, b, glyphs, i, j + 1, room) && b.style == a.style
  {
    hide SoundRow, PaintToken, Left, Building, CellRow, InkRow, WidthsOf, GrowsAt;
    GrowsThere(m, glyphs, i, j, room);
    SoundWidths(m, glyphs, i, room);
    b := GrowthPainted(m, a, |CellRow(glyphs[..i])|, glyphs[i].text, glyphs[i].style, j, room);
    LeftKept(a, b, glyphs[..i]);
  }

  /** More characters of a glyph already begun. */
  lemma {:induction false} PaintGrowth(m: Metrics, a: Painted, glyphs: seq<Glyph>, i: nat, j: nat, end: nat, room: nat)
    returns (b: Painted)
    requires SoundRow(m, glyphs, room) && Within(m, a, glyphs, i, j, room) && j <= end <= |glyphs[i].text|
    ensures PenShaped(a.pen) && Paint(m, a, glyphs[i].text[j..end]) == Some(b)
    ensures Within(m, b, glyphs, i, end, room) && b.style == a.style
    decreases end - j
  {
    hide Paint, PaintToken, Within, SoundRow;
    WithinShaped(m, a, glyphs, i, j, room);
    if j == end {
      assert glyphs[i].text[j..end] == "";
      PaintNothing(m, a);
      b := a;
    } else {
      var t := glyphs[i].text;
      assert [t[j]] + t[j + 1..end] == t[j..end];
      var next := OneGrowth(m, a, glyphs, i, j, room);
      PaintChar(m, a, t[j]);
      PaintBoth(m, a, [t[j]], t[j + 1..end]);
      b := PaintGrowth(m, next, glyphs, i, j + 1, end, room);
    }
  }

  /** The glyph before the cursor is the last one painted. */
  lemma LastIsBefore(a: Painted, done: seq<Glyph>, g: Glyph, room: nat)
    requires Front(a, done + [g], room) && g.width >= 1 && g.text != ""
    ensures 0 < a.pen.x && a.pen.cells[Before(a.pen.cells, a.pen.x)] == g.text
  {
    LastGlyph(done, g);
    hide CellRow, InkRow, BlankFrom;
    var p, cells := |CellRow(done)|, a.pen.cells;
    assert forall k :: 0 <= k < a.pen.x ==> cells[k] == cells[..a.pen.x][k];
    assert cells[p] == g.text && forall k :: p < k < a.pen.x ==> cells[k] == "";
    assert Before(cells, a.pen.x) == p;
  }

  lemma StartJoinsNothing(m: Metrics, a: Painted, glyphs: seq<Glyph>, i: nat, room: nat)
    requires SoundRow(m, glyphs, room) && i < |glyphs| && Front(a, glyphs[..i], room)
    ensures glyphs[i].text != "" && !Joins(m, a.pen.cells, a.pen.x, glyphs[i].text[0])
  {
    hide CellRow, InkRow, BlankFrom, GrowsAt, WidthsOf;
    assert SoundAt(m, glyphs, i, room);
    if i == 0 {
      assert CellRow(glyphs[..0]) == [] by { NothingLaid(); assert glyphs[..0] == []; }
    } else {
      assert SoundAt(m, glyphs, i - 1, room);
      assert glyphs[..i] == glyphs[..i - 1] + [glyphs[i - 1]];
      LastIsBefore(a, glyphs[..i - 1], glyphs[i - 1], room);
    }
  }

  lemma NothingLaid()
    ensures CellRow([]) == [] && InkRow([]) == []
  {
  }

  lemma FirstPainted(m: Metrics, a: Painted, c: char, x: nat, room: nat) returns (b: Painted)
    requires Free(a, x, room) && Printable(c) && 1 <= m.width([c]) && x + m.width([c]) <= room && !Joins(m, a.pen.cells, x, c)
    ensures PaintToken(m, a, Single(c)) == Some(b) && Building(m, b, x, [c], a.style, room) && SameLeft(a, b, x)
  {
    hide Before;
    b := PaintToken(m, a, Single(c)).value;
  }

  lemma SoundStart(m: Metrics, glyphs: seq<Glyph>, i: nat, room: nat)
    requires SoundRow(m, glyphs, room) && i < |glyphs|
    ensures var t := glyphs[i].text;
            && t != "" && Printable(t[0]) && t[..1] == [t[0]]
            && 1 <= m.width([t[0]]) && WidthsOf(glyphs[..i]) + m.width([t[0]]) <= room
  {
    hide GrowsAt, WidthsOf, JoinsAfter;
    assert SoundAt(m, glyphs, i, room);
    assert glyphs[i].text[..1] == [glyphs[i].text[0]];
  }

  /** The first characters of a new glyph. */
  lemma PaintStart(m: Metrics, a: Painted, glyphs: seq<Glyph>, i: nat, end: nat, room: nat) returns (b: Painted)
    requires SoundRow(m, glyphs, room) && i < |glyphs| && Front(a, glyphs[..i], room)
    requires 1 <= end <= |glyphs[i].text| && a.style == glyphs[i].style
    ensures PenShaped(a.pen) && Paint(m, a, glyphs[i].text[..end]) == Some(b)
    ensures Within(m, b, glyphs, i, end, room) && b.style == a.style
  {
    hide Paint, PaintToken, SoundRow, CellRow, InkRow, WidthsOf, Building, Left, Free, Joins;
    var t := glyphs[i].text;
    FrontIsShaped(a, glyphs[..i], room);
    SoundStart(m, glyphs, i, room);
    SoundWidths(m, glyphs, i, room);
    StartJoinsNothing(m, a, glyphs, i, room);
    var next := FirstPainted(m, a, t[0], |CellRow(glyphs[..i])|, room);
    LeftKept(a, next, glyphs[..i]);
    assert [t[0]] + t[1..end] == t[..end];
    PaintChar(m, a, t[0]);
    PaintBoth(m, a, [t[0]], t[1..end]);
    b := PaintGrowth(m, next, glyphs, i, 1, end, room);
  }

  /** A glyph painted to its end. */
  lemma BuiltFront(m: Metrics, a: Painted, glyphs: seq<Glyph>, i: nat, room: nat)
    requires SoundRow(m, glyphs, room) && i < |glyphs| && Within(m, a, glyphs, i, |glyphs[i].text|, room)
    ensures Front(a, glyphs[..i + 1], room)
  {
    hide CellRow, InkRow, Composed, JoinsAfter, WidthsOf, BlankFrom;
    assert SoundAt(m, glyphs, i, room);
    var g, done := glyphs[i], glyphs[..i];
    var p := |CellRow(done)|;
    assert g.text[..|g.text|] == g.text && glyphs[..i + 1] == done + [g];
    LastGlyph(done, g);
    assert a.pen.cells[..a.pen.x] == a.pen.cells[..p] + [g.text] + BlankRow(g.width - 1, "");
    assert a.pen.inks[..a.pen.x] == a.pen.inks[..p] + [g.style] + BlankRow(g.width - 1, "");
  }

  /** Of the glyphs of a row, those laid so far are painted. */
  predicate Reached(m: Metrics, a: Painted, glyphs: seq<Glyph>, done: seq<Glyph>, room: nat) {
    if done == [] then Front(a, [], room) else Within(m, a, glyphs, |done| - 1, |done[|done| - 1].text|, room)
  }

  lemma ReachedIsShaped(m: Metrics, a: Painted, glyphs: seq<Glyph>, done: seq<Glyph>, room: nat)
    requires Reached(m, a, glyphs, done, room)
    ensures PenShaped(a.pen)
  {
  }

  /** Styles in force do not matter to what is painted. */
  lemma ReachedInStyle(m: Metrics, a: Painted, glyphs: seq<Glyph>, done: seq<Glyph>, room: nat, style: string)
    requires Reached(m, a, glyphs, done, room)
    ensures Reached(m, a.(style := style), glyphs, done, room)
  {
    hide CellRow, InkRow;
  }

  lemma NewGlyphFront(m: Metrics, a: Painted, glyphs: seq<Glyph>, done: seq<Glyph>, room: nat)
    requires SoundRow(m, glyphs, room) && Reached(m, a, glyphs, done, room) && |done| <= |glyphs| && glyphs[..|done|] == done
    ensures Front(a, glyphs[..|done|], room)
  {
    hide Front, Within, SoundRow;
    if done != [] {
      assert glyphs[|done| - 1] == done[|done| - 1];
      BuiltFront(m, a, glyphs, |done| - 1, room);
    }
  }

  /** Where a piece goes: at the end of the last glyph, or into a glyph of its own. */
  lemma WherePieceGoes(m: Metrics, glyphs: seq<Glyph>, done: seq<Glyph>, piece: Glyph, later: seq<Glyph>, room: nat)
    requires glyphs == LaidAll(Laid(done, piece), later) && SoundRow(m, glyphs, room) && piece.text != ""
    ensures var n, next := |done|, Laid(done, piece);
            if piece.width == 0 && n > 0 then
              && |next| == n <= |glyphs| && next[n - 1].text == done[n - 1].text + piece.text <= glyphs[n - 1].text
            else
              && |next| == n + 1 <= |glyphs| && glyphs[..n] == done && next[n].text == piece.text <= glyphs[n].text
              && glyphs[n].style == piece.style
  {
    hide SoundAt, LaidAll;
    LaidExtends(Laid(done, piece), later);
  }

  /** One piece, in the style in force. */
  lemma PaintPiece(m: Metrics, a: Painted, glyphs: seq<Glyph>, done: seq<Glyph>, piece: Glyph, later: seq<Glyph>, room: nat)
    returns (b: Painted)
    requires glyphs == LaidAll(Laid(done, piece), later) && SoundRow(m, glyphs, room) && piece.text != "" && piece.style == a.style
    requires Reached(m, a, glyphs, done, room)
    ensures PenShaped(a.pen) && Paint(m, a, piece.text) == Some(b) && b.style == a.style
    ensures Reached(m, b, glyphs, Laid(done, piece), room)
  {
    hide Paint, SoundRow, LaidAll, Within, Front;
    ReachedIsShaped(m, a, glyphs, done, room);
    WherePieceGoes(m, glyphs, done, piece, later, room);
    var n := |done|;
    if piece.width == 0 && n > 0 {
      var j, u := |done[n - 1].text|, done[n - 1].text + piece.text;
      assert glyphs[n - 1].text[j..|u|] == glyphs[n - 1].text[..|u|][j..] == piece.text;
      b := PaintGrowth(m, a, glyphs, n - 1, j, |u|, room);
    } else {
      NewGlyphFront(m, a, glyphs, done, room);
      assert glyphs[n].text[..|piece.text|] == piece.text;
      b := PaintStart(m, a, glyphs, n, |piece.text|, room);
    }
  }

  /** Pieces one after the other, in the style in force: they land in the glyphs the layout laid them into. */
  lemma {:induction false} PaintPieces(m: Metrics, a: Painted, done: seq<Glyph>, pieces: seq<Glyph>, later: seq<Glyph>, room: nat)
    returns (b: Painted)
    requires var glyphs := LaidAll(done, pieces + later); SoundRow(m, glyphs, room) && Reached(m, a, glyphs, done, room)
    requires forall p :: p in pieces ==> p.text != "" && p.style == a.style
    ensures PenShaped(a.pen) && Paint(m, a, TextsOf(pieces)) == Some(b) && b.style == a.style
    ensures Reached(m, b, LaidAll(done, pieces + later), LaidAll(done, pieces), room)
    decreases |pieces|
  {
    hide Paint, SoundRow, Laid, Reached;
    var glyphs := LaidAll(done, pieces + later);
    ReachedIsShaped(m, a, glyphs, done, room);
    if pieces == [] {
      PaintNothing(m, a);
      b := a;
    } else {
      assert (pieces + later)[1..] == pieces[1..] + later && (pieces + later)[0] == pieces[0];
      var c := PaintPiece(m, a, glyphs, done, pieces[0], pieces[1..] + later, room);
      b := PaintPieces(m, c, Laid(done, pieces[0]), pieces[1..], later, room);
      ReachedIsShaped(m, c, glyphs, Laid(done, pieces[0]), room);
      PaintBoth(m, a, pieces[0].text, TextsOf(pieces[1..]));
    }
  }

  // ---------------------------------------------------------------------------
  // One row

  lemma {:induction false} PaintStyle(m: Metrics, a: Painted, style: string)
    requires PenShaped(a.pen) && Replays(style)
    ensures Paint(m, a, style) == Some(a.(style := a.style + style))
    decreases |style|
  {
    hide Next, Interpret;
    if style == "" {
      assert a.style + style == a.style;
    } else {
      var Lexeme(token, size) := Next(style);
      ControlSpelling(style);
      InterpretStyle(token.body);
      PaintStyle(m, a.(style := a.style + style[..size]), style[size..]);
      assert a.style + style[..size] + style[size..] == a.style + style;
      assert Sgr(token.body) == style[..size];
    }
  }

  lemma InterpretStyle(body: string)
    requires body !in {"", "0"}
    ensures Interpret(body, 'm') == AddStyle(body)
  {
    hide Split, Number;
  }

  lemma PaintReset(m: Metrics, a: Painted)
    requires PenShaped(a.pen)
    ensures Paint(m, a, RESET) == Some(a.(style := ""))
  {
    hide Paint;
    assert ControlSequence(RESET, 3) && RESET[2..3] == "0";
    PaintControl(m, a, RESET, 3);
  }

  /** The sequences around a link draw nothing. */
  lemma PaintLink(m: Metrics, a: Painted, uri: string)
    requires PenShaped(a.pen) && forall k :: 0 <= k < |uri| ==> Printable(uri[k])
    ensures Paint(m, a, LinkOpen(uri)) == Some(a)
  {
    hide Paint;
    var text := LinkOpen(uri);
    forall e | 2 <= e < |text| ensures !StringEndsAt(text, 2, e) {
      assert text[e - 1] != BEL && (e > 3 ==> text[e - 2] != ESC) by {
        assert forall k :: 5 <= k < |text| - 2 ==> text[k] == uri[k - 5];
      }
    }
    StringTokenEndsAtFirstTerminator(text, |text|);
    PaintOneToken(m, a, text);
  }

  lemma FourPieces(g: Glyph)
    ensures TextsOf([g, g, g, g]) == g.text + (g.text + (g.text + g.text)) && WidthsOf([g, g, g, g]) == 4 * g.width
  {
    hide TextsOf, WidthsOf;
    OfOne(g);
    assert [g, g, g, g] == [g] + ([g] + ([g] + [g]));
    OfBoth([g], [g]);
    OfBoth([g], [g] + [g]);
    OfBoth([g], [g] + ([g] + [g]));
  }

  /** A grapheme is its pieces put together. */
  lemma PiecesOfCell(cell: Renderer.Cell, style: string)
    requires SoundCell(cell)
    ensures var pieces := Pieces(cell, style);
            && TextsOf(pieces) == cell.text && WidthsOf(pieces) == cell.width
            && forall p :: p in pieces ==> p.text != "" && p.style == style
  {
    hide TextsOf, WidthsOf;
    if cell.text == TAB {
      FourPieces(Glyph(" ", 1, style));
      assert " " + (" " + (" " + " ")) == TAB;
    } else {
      OfOne(Glyph(cell.text, cell.width, style));
    }
  }

  /** What the cut of a span takes is the text of the pieces that fit. */
  lemma {:induction false} KeptIsTaken(cells: seq<Renderer.Cell>, style: string, room: nat)
    requires forall i :: 0 <= i < |cells| ==> SoundCell(cells[i])
    ensures var taken, kept := TakeCells(cells, room), Kept(cells, style, room);
            && taken.text == TextsOf(kept) && taken.width == WidthsOf(kept) && (taken.text == "" ==> kept == [])
            && forall p :: p in kept ==> p.text != "" && p.style == style
  {
    hide SoundCell, Pieces, TextsOf, WidthsOf;
    OfNothing();
    if cells != [] {
      if cells[0].text == "\n" {
        KeptIsTaken(cells[1..], style, room);
      } else if cells[0].width <= room {
        var rest := Kept(cells[1..], style, room - cells[0].width);
        PiecesOfCell(cells[0], style);
        KeptIsTaken(cells[1..], style, room - cells[0].width);
        OfBoth(Pieces(cells[0], style), rest);
        CellHasText(cells[0]);
      }
    }
  }

  lemma CellHasText(cell: Renderer.Cell)
    requires SoundCell(cell)
    ensures cell.text != ""
  {
  }

  lemma PaintStyled(m: Metrics, a: Painted, done: seq<Glyph>, span: Span, taken: Taken, later: seq<Glyph>, room: nat, limit: nat)
    returns (b: Painted)
    requires SoundSpan(span) && a.style == "" && taken == TakeCells(span.cells, room)
    requires var glyphs := LaidAll(done, Kept(span.cells, span.style, room) + later);
             SoundRow(m, glyphs, limit) && Reached(m, a, glyphs, done, limit)
    ensures PenShaped(a.pen) && b.style == ""
    ensures Paint(m, a, if span.style != "" then span.style + taken.text + RESET else taken.text) == Some(b)
    ensures var kept := Kept(span.cells, span.style, room); Reached(m, b, LaidAll(done, kept + later), LaidAll(done, kept), limit)
  {
    hide Paint, Reached, SoundRow, SoundCell, LaidAll, TakeCells, Kept, Replays, TextsOf;
    var kept, style := Kept(span.cells, span.style, room), span.style;
    var glyphs := LaidAll(done, kept + later);
    ReachedIsShaped(m, a, glyphs, done, limit);
    KeptIsTaken(span.cells, style, room);
    PaintStyle(m, a, style);
    assert "" + style == style;
    ReachedInStyle(m, a, glyphs, done, limit, style);
    var c := PaintPieces(m, a.(style := style), done, kept, later, limit);
    ReachedIsShaped(m, c, glyphs, LaidAll(done, kept), limit);
    PaintReset(m, c);
    b := c.(style := "");
    ReachedInStyle(m, c, glyphs, LaidAll(done, kept), limit, "");
    PaintBoth(m, a, style, TextsOf(kept));
    PaintBoth(m, a, style + TextsOf(kept), RESET);
    assert style == "" ==> a.(style := style) == a && c == b;
  }

  /** A span in its style and its link. */
  lemma PaintDressed(m: Metrics, a: Painted, done: seq<Glyph>, span: Span, taken: Taken, later: seq<Glyph>, room: nat, limit: nat)
    returns (b: Painted)
    requires SoundSpan(span) && a.style == "" && taken == TakeCells(span.cells, room)
    requires var glyphs := LaidAll(done, Kept(span.cells, span.style, room) + later);
             SoundRow(m, glyphs, limit) && Reached(m, a, glyphs, done, limit)
    ensures PenShaped(a.pen) && b.style == "" && Paint(m, a, Dressed(span, taken.text)) == Some(b)
    ensures var kept := Kept(span.cells, span.style, room); Reached(m, b, LaidAll(done, kept + later), LaidAll(done, kept), limit)
  {
    hide Paint, Reached, SoundRow, SoundCell, LaidAll, TakeCells, Kept, Replays, LinkOpen;
    b := PaintStyled(m, a, done, span, taken, later, room, limit);
    var kept := Kept(span.cells, span.style, room);
    ReachedIsShaped(m, b, LaidAll(done, kept + later), LaidAll(done, kept), limit);
    if span.link.Some? {
      var open, body := LinkOpen(span.link.value), if span.style != "" then span.style + taken.text + RESET else taken.text;
      PaintLink(m, a, span.link.value);
      PaintLink(m, b, "");
      LinkCloseIsEmptyLink();
      PaintBoth(m, a, open, body);
      PaintBoth(m, a, open + body, LINK_CLOSE);
    }
  }

  lemma LinkCloseIsEmptyLink()
    ensures LINK_CLOSE == LinkOpen("")
  {
    assert "]8;;" + "" == "]8;;";
  }

  /** What is written of a row, span by span. */
  lemma KeptFirst(line: Line, room: nat)
    requires line != [] && SoundSpan(line[0])
    ensures var taken, kept := TakeCells(line[0].cells, room), Kept(line[0].cells, line[0].style, room);
            var rest := KeptLine(line[1..], room - taken.width);
            && (taken.text == "" ==> taken.width == 0 && KeptLine(line, room) == rest)
            && (taken.text != "" && taken.width == room ==> KeptLine(line, room) == kept + [])
            && (taken.text != "" && taken.width != room ==> KeptLine(line, room) == kept + rest)
            && WidthsOf(kept) == taken.width
  {
    hide SoundCell, TakeCells, Kept, TextsOf, WidthsOf;
    OfNothing();
    KeptIsTaken(line[0].cells, line[0].style, room);
  }

  /** Every piece that is written counts. */
  lemma {:induction false} UsedIsWidths(line: Line, room: nat)
    requires forall i :: 0 <= i < |line| ==> SoundSpan(line[i])
    ensures WidthsOf(KeptLine(line, room)) == Encode(line, room).used
    decreases |line|
  {
    hide SoundSpan, TakeCells, Kept, KeptLine, Dressed, Encode, WidthsOf;
    OfNothing();
    if line == [] {
      NothingKept(line, room);
      EncodeNothing(line, room);
    } else {
      assert line[0..] == line;
      EncodeFrom(line, 0, room);
      KeptFirst(line, room);
      var taken, kept := TakeCells(line[0].cells, room), Kept(line[0].cells, line[0].style, room);
      UsedIsWidths(line[1..], room - taken.width);
      OfBoth(kept, []);
      OfBoth(kept, KeptLine(line[1..], room - taken.width));
    }
  }

  lemma NothingKept(line: Line, room: nat)
    requires line == []
    ensures KeptLine(line, room) == []
  {
  }

  lemma {:induction false} PaintLine(m: Metrics, a: Painted, done: seq<Glyph>, line: Line, room: nat, limit: nat)
    returns (b: Painted)
    requires (forall i :: 0 <= i < |line| ==> SoundSpan(line[i])) && a.style == ""
    requires var glyphs := LaidAll(done, KeptLine(line, room)); SoundRow(m, glyphs, limit) && Reached(m, a, glyphs, done, limit)
    ensures PenShaped(a.pen) && b.style == "" && Paint(m, a, Encode(line, room).out) == Some(b)
    ensures var glyphs := LaidAll(done, KeptLine(line, room)); Reached(m, b, glyphs, glyphs, limit)
    decreases |line|
  {
    hide Paint, Reached, SoundSpan, SoundRow, TakeCells, Dressed, Encode, Kept, KeptLine, LaidAll;
    var glyphs := LaidAll(done, KeptLine(line, room));
    ReachedIsShaped(m, a, glyphs, done, limit);
    if line == [] {
      EncodeNothing(line, room);
      PaintNothing(m, a);
      NothingKept(line, room);
      LaidNothing(done);
      b := a;
    } else {
      assert line[0..] == line;
      EncodeFrom(line, 0, room);
      KeptFirst(line, room);
      var taken, kept := TakeCells(line[0].cells, room), Kept(line[0].cells, line[0].style, room);
      var rest := KeptLine(line[1..], room - taken.width);
      if taken.text == "" {
        b := PaintLine(m, a, done, line[1..], room, limit);
        assert "" + Encode(line[1..], room).out == Encode(line[1..], room).out;
      } else if taken.width == room {
        b := PaintDressed(m, a, done, line[0], taken, [], room, limit);
        assert kept + [] == kept;
      } else {
        LaidBoth(done, kept, rest);
        var c := PaintDressed(m, a, done, line[0], taken, rest, room, limit);
        b := PaintLine(m, c, LaidAll(done, kept), line[1..], room - taken.width, limit);
        PaintBoth(m, a, Dressed(line[0], taken.text), Encode(line[1..], room - taken.width).out);
      }
    }
  }

  lemma LaidNothing(done: seq<Glyph>)
    ensures LaidAll(done, []) == done
  {
  }

  lemma BlankLineIsFront(cols: nat, room: nat)
    requires 2 <= cols && room <= cols
    ensures Front(BlankLine(cols), [], room) && BlankLine(cols).style == "" && BlankLine(cols).pen.x == 0
  {
  }

  /** What a painted front leaves for the picture of its row. */
  lemma FrontFinished(b: Painted, room: nat, done: seq<Glyph>)
    requires Front(b, done, room) && b.style == ""
    ensures var r, left := Finished(b, room), |b.pen.cells| - b.pen.x;
            && SelfStyled(r) && BlankFrom(r, room)
            && r.pen.cells == CellRow(done) + BlankRow(left, " ") && r.pen.inks == InkRow(done) + BlankRow(left, "")
  {
    hide CellRow, InkRow;
    var r, x := Finished(b, room), b.pen.x;
    assert r.pen.cells == b.pen.cells[..x] + BlankRow(|b.pen.cells| - x, " ");
    assert r.pen.inks == b.pen.inks[..x] + BlankRow(|b.pen.cells| - x, "");
  }

  lemma AllReached(m: Metrics, b: Painted, glyphs: seq<Glyph>, room: nat)
    requires SoundRow(m, glyphs, room) && Reached(m, b, glyphs, glyphs, room)
    ensures Front(b, glyphs, room) && |CellRow(glyphs)| == WidthsOf(glyphs)
  {
    hide SoundRow, Front, CellRow, InkRow, WidthsOf, Within;
    assert glyphs[..|glyphs|] == glyphs;
    NewGlyphFront(m, b, glyphs, glyphs, room);
    SoundWidths(m, glyphs, |glyphs|, room);
  }

  /** A sound row is measured by the receiver as it was by the layout. Its picture is the glyphs that fit, each in its cells
      and in its span's style, and blanks; and no cell of it shows what was there before. */
  lemma SoundLineMeasured(m: Metrics, line: Line, cols: nat, room: nat)
    requires 2 <= cols && room <= cols && SoundLine(m, line, room)
    ensures var e, picture := Encode(line, room), Picture(m, cols, room, Encode(line, room).out);
            && Measured(m, cols, room, e) && SelfStyled(picture)
            && picture.pen.cells == CellRow(GlyphsOfLine(line, room)) + BlankRow(cols - e.used, " ")
            && picture.pen.inks == InkRow(GlyphsOfLine(line, room)) + BlankRow(cols - e.used, "")
  {
    hide Paint, SoundSpan, SoundRow, Encode, CellRow, InkRow, KeptLine, LaidAll, BlankLine, Finished, BlankFrom;
    hide SelfStyled, WidthsOf, Front;
    BlankLineIsFront(cols, room);
    var glyphs := GlyphsOfLine(line, room);
    var b := PaintLine(m, BlankLine(cols), [], line, room, room);
    AllReached(m, b, glyphs, room);
    FrontIsShaped(b, glyphs, room);
    LaidKeeps([], KeptLine(line, room));
    OfNothing();
    UsedIsWidths(line, room);
    FrontFinished(b, room, glyphs);
  }
}
