/** Terminal rows painted into one flat RGBA buffer, cell by cell. */
module MascotRaster {
  import opened Numbers
  import opened Strings

  newtype Byte = x: int | 0 <= x < 256

  datatype Colour = Colour(r: Byte, g: Byte, b: Byte)

  datatype Pixel = Pixel(colour: Colour, alpha: Byte)

  datatype Raster = Raster(width: nat, height: nat, rgba: array<Byte>)

  datatype Rect = Rect(x: int, y: int, w: int, h: int, colour: Colour)

  /** `font` has a glyph's five columns by seven rows of dots; `rgb` reads a colour, `shade` maps it to the terminal's palette. */
  datatype Look = Look(
    background: string, colors: map<string, string>,
    rgb: string -> Colour, shade: string -> string, font: map<char, (int, int) -> bool>)

  datatype Span = Span(text: string, fg: Option<string>, fgHex: Option<string>, bg: Option<string>, bgHex: Option<string>, dim: bool)

  type Line = seq<Span>

  /** A character with the span that styles it: what one cell shows. */
  datatype Cell = Cell(shown: char, span: Span)

  const BLANK := Pixel(Colour(0, 0, 0), 0)
  const FULL_BLOCK := '\U{2588}'
  const UPPER_HALF := '\U{2580}'
  const LOWER_HALF := '\U{2584}'

  // ---------------------------------------------------------------------------
  // The buffer

  predicate Sized(out: Raster) {
    out.rgba.Length == 4 * (out.width * out.height)
  }

  predicate On(width: nat, height: nat, px: int, py: int) {
    0 <= px < width && 0 <= py < height
  }

  function Spot(width: nat, px: int, py: int): int {
    py * width + px
  }

  lemma SpotOnRaster(width: nat, height: nat, px: int, py: int)
    requires On(width, height, px, py)
    ensures 0 <= Spot(width, px, py) < width * height
  {
    assert (py + 1) * width <= height * width;
  }

  lemma SpotsDiffer(width: nat, px: int, py: int, qx: int, qy: int)
    requires 0 <= px < width && 0 <= qx < width && (px != qx || py != qy)
    ensures Spot(width, px, py) != Spot(width, qx, qy)
  {
    if py < qy {
      assert (py + 1) * width <= qy * width;
    } else if qy < py {
      assert (qy + 1) * width <= py * width;
    }
  }

  function PixelAt(rgba: seq<Byte>, width: nat, height: nat, px: int, py: int): Pixel
    requires |rgba| == 4 * (width * height) && On(width, height, px, py)
  {
    SpotOnRaster(width, height, px, py);
    var i := 4 * Spot(width, px, py);
    Pixel(Colour(rgba[i], rgba[i + 1], rgba[i + 2]), rgba[i + 3])
  }

  predicate Covers(r: Rect, px: int, py: int) {
    r.x <= px < r.x + r.w && r.y <= py < r.y + r.h
  }

  /** Pixels share no bytes. */
  lemma OtherPixelsKept(was: seq<Byte>, now: seq<Byte>, width: nat, height: nat, px: int, py: int)
    requires |was| == |now| == 4 * (width * height) && On(width, height, px, py)
    requires forall i :: 0 <= i < |was| && !(0 <= i - 4 * Spot(width, px, py) < 4) ==> now[i] == was[i]
    ensures forall qx, qy | On(width, height, qx, qy) && (qx != px || qy != py) ::
              PixelAt(now, width, height, qx, qy) == PixelAt(was, width, height, qx, qy)
  {
    hide Spot;
    forall qx, qy | On(width, height, qx, qy) && (qx != px || qy != py)
      ensures PixelAt(now, width, height, qx, qy) == PixelAt(was, width, height, qx, qy)
    {
      SpotOnRaster(width, height, qx, qy);
      SpotsDiffer(width, px, py, qx, qy);
    }
  }

  method SetPixel(out: Raster, px: int, py: int, p: Pixel)
    requires Sized(out) && On(out.width, out.height, px, py)
    modifies out.rgba
    ensures forall qx, qy | On(out.width, out.height, qx, qy) ::
              PixelAt(out.rgba[..], out.width, out.height, qx, qy) ==
              if qx == px && qy == py then p else PixelAt(old(out.rgba[..]), out.width, out.height, qx, qy)
  {
    hide Spot;
    SpotOnRaster(out.width, out.height, px, py);
    var at := Spot(out.width, px, py) * 4;
    out.rgba[at], out.rgba[at + 1], out.rgba[at + 2], out.rgba[at + 3] := p.colour.r, p.colour.g, p.colour.b, p.alpha;
    OtherPixelsKept(old(out.rgba[..]), out.rgba[..], out.width, out.height, px, py);
  }

  /** `now` is `was` with the pixels of `done` painted. */
  ghost predicate Painted(was: seq<Byte>, now: seq<Byte>, width: nat, height: nat, colour: Colour, done: (int, int) -> bool)
    requires |was| == |now| == 4 * (width * height)
  {
    forall px, py | On(width, height, px, py) ::
      PixelAt(now, width, height, px, py) == if done(px, py) then Pixel(colour, 255) else PixelAt(was, width, height, px, py)
  }

  /** Paints the part of the rectangle that lies on the raster, and nothing else. */
  method Fill(out: Raster, r: Rect)
    requires Sized(out)
    modifies out.rgba
    ensures Painted(old(out.rgba[..]), out.rgba[..], out.width, out.height, r.colour, (px, py) => Covers(r, px, py))
  {
    hide PixelAt;
    var py := Max(0, r.y);
    while py < Min(out.height, r.y + r.h)
      invariant Max(0, r.y) <= py
      invariant Painted(old(out.rgba[..]), out.rgba[..], out.width, out.height, r.colour,
                        (qx, qy) => Covers(r, qx, qy) && qy < py)
    {
      var px := Max(0, r.x);
      while px < Min(out.width, r.x + r.w)
        invariant Max(0, r.x) <= px
        invariant Painted(old(out.rgba[..]), out.rgba[..], out.width, out.height, r.colour,
                          (qx, qy) => Covers(r, qx, qy) && (qy < py || (qy == py && qx < px)))
      {
        SetPixel(out, px, py, Pixel(r.colour, 255));
        px := px + 1;
      }
      py := py + 1;
    }
  }

  // ---------------------------------------------------------------------------
  // What fills amount to

  /** The pixel under a list of fills: the last one that covers it wins. */
  function PaintOver(under: Pixel, rects: seq<Rect>, px: int, py: int): Pixel {
    if rects == [] then under
    else
      var n := |rects| - 1;
      if Covers(rects[n], px, py) then Pixel(rects[n].colour, 255) else PaintOver(under, rects[..n], px, py)
  }

  ghost predicate Shows(rgba: seq<Byte>, width: nat, height: nat, rects: seq<Rect>)
    requires |rgba| == 4 * (width * height)
  {
    forall px, py | On(width, height, px, py) :: PixelAt(rgba, width, height, px, py) == PaintOver(BLANK, rects, px, py)
  }

  lemma FillShows(was: seq<Byte>, now: seq<Byte>, width: nat, height: nat, rects: seq<Rect>, r: Rect)
    requires |was| == |now| == 4 * (width * height) && Shows(was, width, height, rects)
    requires Painted(was, now, width, height, r.colour, (px, py) => Covers(r, px, py))
    ensures Shows(now, width, height, rects + [r])
  {
    hide PixelAt, Covers;
    assert (rects + [r])[..|rects|] == rects;
  }

  lemma {:induction false} PaintOverBoth(under: Pixel, a: seq<Rect>, b: seq<Rect>, px: int, py: int)
    ensures PaintOver(under, a + b, px, py) == PaintOver(PaintOver(under, a, px, py), b, px, py)
  {
    if b == [] {
      assert a + b == a;
    } else {
      assert (a + b)[..|a + b| - 1] == a + b[..|b| - 1];
      PaintOverBoth(under, a, b[..|b| - 1], px, py);
    }
  }

  // ---------------------------------------------------------------------------
  // Style

  function Role(look: Look, name: Option<string>, fallback: string): string {
    if name.Some? && name.value in look.colors && name.value != "" then look.colors[name.value] else fallback
  }

  function Foreground(look: Look, span: Span): string
    requires "text" in look.colors
  {
    look.shade(if span.fgHex.Some? then span.fgHex.value else Role(look, span.fg, look.colors["text"]))
  }

  function Background(look: Look, span: Span): Option<string> {
    if span.bgHex.Some? then span.bgHex
    else if span.bg.Some? && span.bg.value != "" then Some(Role(look, span.bg, look.background))
    else None
  }

  function DotColour(look: Look, span: Span): Colour
    requires "text" in look.colors
  {
    look.rgb(if span.dim then look.shade(Role(look, Some("muted"), Foreground(look, span))) else Foreground(look, span))
  }

  datatype Arms = Arms(up: bool, right: bool, down: bool, left: bool)

  /** Box-drawing glyphs and the arms they have. */
  function BoxArms(c: char): Option<Arms> {
    match c
    case '\U{2500}' => Some(Arms(false, true, false, true))
    case '\U{2502}' => Some(Arms(true, false, true, false))
    case '\U{250C}' => Some(Arms(false, true, true, false))
    case '\U{2510}' => Some(Arms(false, false, true, true))
    case '\U{2514}' => Some(Arms(true, true, false, false))
    case '\U{2518}' => Some(Arms(true, false, false, true))
    case '\U{251C}' => Some(Arms(true, true, true, false))
    case '\U{2524}' => Some(Arms(true, false, true, true))
    case '\U{252C}' => Some(Arms(false, true, true, true))
    case '\U{2534}' => Some(Arms(true, true, false, true))
    case '\U{253C}' => Some(Arms(true, true, true, true))
    case '\U{256D}' => Some(Arms(false, true, true, false))
    case '\U{256E}' => Some(Arms(false, false, true, true))
    case '\U{2570}' => Some(Arms(true, true, false, false))
    case '\U{256F}' => Some(Arms(true, false, false, true))
    case '\U{2503}' => Some(Arms(true, false, true, false))
    case '\U{2501}' => Some(Arms(false, true, false, true))
    case _ => None
  }

  // ---------------------------------------------------------------------------
  // The fills of one cell whose top left pixel is (x, y)

  function When(c: bool, r: Rect): seq<Rect> { if c then [r] else [] }

  function Thickness(cell: nat): nat { Max(1, cell / 8) }

  function Dot(cell: nat): nat { Max(1, cell / 6) }

  function DotLeft(cell: nat): int { (cell - 5 * Dot(cell)) / 2 }

  function DotTop(cell: nat): int { (2 * cell - 7 * Dot(cell)) / 2 }

  function BoxRects(cell: nat, arms: Arms, x: int, y: int, fg: Colour): seq<Rect> {
    var mx, my, t := x + cell / 2, y + cell, Thickness(cell);
    When(arms.up, Rect(mx, y, t, cell, fg)) + When(arms.down, Rect(mx, my, t, cell, fg))
    + When(arms.left, Rect(x, my, cell / 2 + t, t, fg)) + When(arms.right, Rect(mx, my, cell - cell / 2, t, fg))
  }

  function DotRect(cell: nat, x: int, y: int, gx: nat, gy: nat, colour: Colour): Rect {
    Rect(x + DotLeft(cell) + gx * Dot(cell), y + DotTop(cell) + gy * Dot(cell), Dot(cell), Dot(cell), colour)
  }

  /** The first `k` dots of a glyph, left to right and top to bottom. */
  function GlyphRects(cell: nat, glyph: (int, int) -> bool, x: int, y: int, colour: Colour, k: nat): seq<Rect> {
    if k == 0 then []
    else
      GlyphRects(cell, glyph, x, y, colour, k - 1)
      + When(glyph((k - 1) / 5, (k - 1) % 5), DotRect(cell, x, y, (k - 1) % 5, (k - 1) / 5, colour))
  }

  function MissingRect(cell: nat, x: int, y: int, fg: Colour): Rect {
    Rect(x + cell / 2 - Dot(cell), y + cell - Dot(cell), Dot(cell) * 2, Dot(cell) * 2, fg)
  }

  function InkRects(look: Look, cell: nat, c: Cell, x: int, y: int): seq<Rect>
    requires "text" in look.colors
  {
    var fg := look.rgb(Foreground(look, c.span));
    if c.shown == FULL_BLOCK then [Rect(x, y, cell, cell * 2, fg)]
    else if c.shown == UPPER_HALF then [Rect(x, y, cell, cell, fg)]
    else if c.shown == LOWER_HALF then [Rect(x, y + cell, cell, cell, fg)]
    else if BoxArms(c.shown).Some? then BoxRects(cell, BoxArms(c.shown).value, x, y, fg)
    else if c.shown == ' ' then []
    else if c.shown in look.font then GlyphRects(cell, look.font[c.shown], x, y, DotColour(look, c.span), 35)
    else [MissingRect(cell, x, y, fg)]
  }

  function BackRects(look: Look, cell: nat, c: Cell, x: int, y: int): seq<Rect> {
    var bg := Background(look, c.span);
    if bg.Some? && bg.value != "" then [Rect(x, y, cell, cell * 2, look.rgb(look.shade(bg.value)))] else []
  }

  function CellRects(look: Look, cell: nat, c: Cell, x: int, y: int): seq<Rect>
    requires "text" in look.colors
  {
    BackRects(look, cell, c, x, y) + InkRects(look, cell, c, x, y)
  }

  // ---------------------------------------------------------------------------
  // The fills of a page

  function SpanCells(span: Span): (r: seq<Cell>)
    ensures |r| == |span.text|
  {
    seq(|span.text|, i requires 0 <= i < |span.text| => Cell(span.text[i], span))
  }

  function LineCells(line: Line): seq<Cell> {
    if line == [] then [] else LineCells(line[..|line| - 1]) + SpanCells(line[|line| - 1])
  }

  function RowRects(look: Look, cell: nat, cells: seq<Cell>, row: nat): seq<Rect>
    requires "text" in look.colors
  {
    if cells == [] then []
    else
      var n := |cells| - 1;
      RowRects(look, cell, cells[..n], row) + CellRects(look, cell, cells[n], n * cell, row * (cell * 2))
  }

  function Shown(cells: seq<Cell>, cols: nat): seq<Cell> { cells[..Min(cols, |cells|)] }

  /** The background and the first `n` rows. */
  function PageRects(look: Look, cell: nat, cols: nat, rows: nat, lines: seq<Line>, n: nat): seq<Rect>
    requires "text" in look.colors && n <= |lines|
  {
    if n == 0 then [Rect(0, 0, cols * cell, rows * (cell * 2), look.rgb(look.shade(look.background)))]
    else PageRects(look, cell, cols, rows, lines, n - 1) + RowRects(look, cell, Shown(LineCells(lines[n - 1]), cols), n - 1)
  }

  // ---------------------------------------------------------------------------
  // Painting

  /** One more fill. */
  method FillNext(out: Raster, r: Rect, ghost done: seq<Rect>)
    requires Sized(out) && Shows(out.rgba[..], out.width, out.height, done)
    modifies out.rgba
    ensures Shows(out.rgba[..], out.width, out.height, done + [r])
  {
    hide Shows, Painted, PixelAt;
    Fill(out, r);
    FillShows(old(out.rgba[..]), out.rgba[..], out.width, out.height, done, r);
  }

  method FillWhen(out: Raster, c: bool, r: Rect, ghost done: seq<Rect>)
    requires Sized(out) && Shows(out.rgba[..], out.width, out.height, done)
    modifies out.rgba
    ensures Shows(out.rgba[..], out.width, out.height, done + When(c, r))
  {
    if c {
      FillNext(out, r, done);
    } else {
      assert done + [] == done;
    }
  }

  method DrawBox(out: Raster, cell: nat, arms: Arms, x: int, y: int, fg: Colour, ghost done: seq<Rect>)
    requires Sized(out) && Shows(out.rgba[..], out.width, out.height, done)
    modifies out.rgba
    ensures Shows(out.rgba[..], out.width, out.height, done + BoxRects(cell, arms, x, y, fg))
  {
    hide Shows, When;
    var mx, my, t := x + cell / 2, y + cell, Thickness(cell);
    ghost var a := When(arms.up, Rect(mx, y, t, cell, fg));
    ghost var b := When(arms.down, Rect(mx, my, t, cell, fg));
    ghost var c := When(arms.left, Rect(x, my, cell / 2 + t, t, fg));
    FillWhen(out, arms.up, Rect(mx, y, t, cell, fg), done);
    FillWhen(out, arms.down, Rect(mx, my, t, cell, fg), done + a);
    FillWhen(out, arms.left, Rect(x, my, cell / 2 + t, t, fg), done + a + b);
    FillWhen(out, arms.right, Rect(mx, my, cell - cell / 2, t, fg), done + a + b + c);
    assert done + BoxRects(cell, arms, x, y, fg) == done + a + b + c + When(arms.right, Rect(mx, my, cell - cell / 2, t, fg));
  }

  lemma GlyphRectsMore(cell: nat, glyph: (int, int) -> bool, x: int, y: int, colour: Colour, gx: nat, gy: nat)
    requires gx < 5
    ensures GlyphRects(cell, glyph, x, y, colour, gy * 5 + gx + 1)
         == GlyphRects(cell, glyph, x, y, colour, gy * 5 + gx) + When(glyph(gy, gx), DotRect(cell, x, y, gx, gy, colour))
  {
    hide When, DotRect;
    assert (gy * 5 + gx) / 5 == gy && (gy * 5 + gx) % 5 == gx;
  }

  lemma NoDots(cell: nat, glyph: (int, int) -> bool, x: int, y: int, colour: Colour, done: seq<Rect>)
    ensures done + GlyphRects(cell, glyph, x, y, colour, 0) == done
  {
  }

  /** The dot at column `gx` and row `gy` of a glyph, when it is set. */
  method DrawDot(out: Raster, cell: nat, glyph: (int, int) -> bool, x: int, y: int, colour: Colour, gx: nat, gy: nat,
      ghost done: seq<Rect>)
    requires Sized(out) && gx < 5
    requires Shows(out.rgba[..], out.width, out.height, done + GlyphRects(cell, glyph, x, y, colour, gy * 5 + gx))
    modifies out.rgba
    ensures Shows(out.rgba[..], out.width, out.height, done + GlyphRects(cell, glyph, x, y, colour, gy * 5 + gx + 1))
  {
    hide Shows, DotRect, When, GlyphRects;
    ghost var before := GlyphRects(cell, glyph, x, y, colour, gy * 5 + gx);
    var dot := DotRect(cell, x, y, gx, gy, colour);
    FillWhen(out, glyph(gy, gx), dot, done + before);
    GlyphRectsMore(cell, glyph, x, y, colour, gx, gy);
    assert done + before + When(glyph(gy, gx), dot) == done + (before + When(glyph(gy, gx), dot));
  }

  method DrawGlyph(out: Raster, cell: nat, glyph: (int, int) -> bool, x: int, y: int, colour: Colour, ghost done: seq<Rect>)
    requires Sized(out) && Shows(out.rgba[..], out.width, out.height, done)
    modifies out.rgba
    ensures Shows(out.rgba[..], out.width, out.height, done + GlyphRects(cell, glyph, x, y, colour, 35))
  {
    hide Shows, GlyphRects;
    NoDots(cell, glyph, x, y, colour, done);
    for gy := 0 to 7
      invariant Shows(out.rgba[..], out.width, out.height, done + GlyphRects(cell, glyph, x, y, colour, gy * 5))
    {
      for gx := 0 to 5
        invariant Shows(out.rgba[..], out.width, out.height, done + GlyphRects(cell, glyph, x, y, colour, gy * 5 + gx))
      {
        DrawDot(out, cell, glyph, x, y, colour, gx, gy, done);
      }
    }
  }

  method DrawCell(out: Raster, look: Look, cell: nat, c: Cell, x: int, y: int, ghost done: seq<Rect>)
    requires Sized(out) && Shows(out.rgba[..], out.width, out.height, done) && "text" in look.colors
    modifies out.rgba
    ensures Shows(out.rgba[..], out.width, out.height, done + CellRects(look, cell, c, x, y))
  {
    hide Shows, BoxRects, GlyphRects, BoxArms;
    var fg, bg := Foreground(look, c.span), Background(look, c.span);
    if bg.Some? && bg.value != "" {
      FillNext(out, Rect(x, y, cell, cell * 2, look.rgb(look.shade(bg.value))), done);
    } else {
      assert done + BackRects(look, cell, c, x, y) == done;
    }
    ghost var now := done + BackRects(look, cell, c, x, y);
    if c.shown == FULL_BLOCK {
      FillNext(out, Rect(x, y, cell, cell * 2, look.rgb(fg)), now);
    } else if c.shown == UPPER_HALF {
      FillNext(out, Rect(x, y, cell, cell, look.rgb(fg)), now);
    } else if c.shown == LOWER_HALF {
      FillNext(out, Rect(x, y + cell, cell, cell, look.rgb(fg)), now);
    } else if BoxArms(c.shown).Some? {
      DrawBox(out, cell, BoxArms(c.shown).value, x, y, look.rgb(fg), now);
    } else if c.shown != ' ' {
      if c.shown in look.font {
        DrawGlyph(out, cell, look.font[c.shown], x, y, DotColour(look, c.span), now);
      } else {
        FillNext(out, MissingRect(cell, x, y, look.rgb(fg)), now);
      }
    } else {
      assert now + InkRects(look, cell, c, x, y) == now;
    }
    assert done + CellRects(look, cell, c, x, y) == now + InkRects(look, cell, c, x, y);
  }

  lemma ShownMore(cells: seq<Cell>, added: seq<Cell>, k: nat, cols: nat)
    requires k < |added| && |Shown(cells + added[..k], cols)| < cols
    ensures Shown(cells + added[..k + 1], cols) == Shown(cells + added[..k], cols) + [added[k]]
  {
    assert cells + added[..k + 1] == cells + added[..k] + [added[k]];
  }

  lemma ShownEnough(cells: seq<Cell>, added: seq<Cell>, k: nat, cols: nat)
    requires k <= |added| && (k == |added| || |Shown(cells + added[..k], cols)| >= cols)
    ensures Shown(cells + added[..k], cols) == Shown(cells + added, cols)
  {
    assert cells + added == cells + added[..k] + added[k..];
  }

  lemma LineCellsMore(line: Line, i: nat)
    requires i < |line|
    ensures LineCells(line[..i + 1]) == LineCells(line[..i]) + SpanCells(line[i])
  {
    assert line[..i + 1][..i] == line[..i];
  }

  lemma RowRectsMore(look: Look, cell: nat, cells: seq<Cell>, c: Cell, row: nat)
    requires "text" in look.colors
    ensures RowRects(look, cell, cells + [c], row)
         == RowRects(look, cell, cells, row) + CellRects(look, cell, c, |cells| * cell, row * (cell * 2))
  {
    assert (cells + [c])[..|cells|] == cells;
  }

  method DrawSpan(out: Raster, look: Look, cell: nat, cols: nat, span: Span, row: nat, start: nat,
      ghost before: seq<Cell>, ghost done: seq<Rect>) returns (col: nat)
    requires Sized(out) && "text" in look.colors && start == |Shown(before, cols)|
    requires Shows(out.rgba[..], out.width, out.height, done + RowRects(look, cell, Shown(before, cols), row))
    modifies out.rgba
    ensures col == |Shown(before + SpanCells(span), cols)|
    ensures Shows(out.rgba[..], out.width, out.height, done + RowRects(look, cell, Shown(before + SpanCells(span), cols), row))
  {
    hide Shows, RowRects, CellRects, Shown;
    ghost var added := SpanCells(span);
    col := start;
    assert before + added[..0] == before;
    var k := 0;
    while k < |span.text|
      invariant k <= |added| && col == |Shown(before + added[..k], cols)|
      invariant Shows(out.rgba[..], out.width, out.height, done + RowRects(look, cell, Shown(before + added[..k], cols), row))
    {
      if col >= cols { break; }
      ghost var cells := Shown(before + added[..k], cols);
      ghost var rects := CellRects(look, cell, Cell(span.text[k], span), col * cell, row * (cell * 2));
      DrawCell(out, look, cell, Cell(span.text[k], span), col * cell, row * (cell * 2), done + RowRects(look, cell, cells, row));
      RowRectsMore(look, cell, cells, added[k], row);
      ShownMore(before, added, k, cols);
      assert done + RowRects(look, cell, cells, row) + rects == done + (RowRects(look, cell, cells, row) + rects);
      col := col + 1;
      k := k + 1;
    }
    ShownEnough(before, added, k, cols);
  }

  lemma BlankShows(rgba: seq<Byte>, width: nat, height: nat)
    requires |rgba| == 4 * (width * height) && forall i :: 0 <= i < |rgba| ==> rgba[i] == 0
    ensures Shows(rgba, width, height, [])
  {
    forall px, py | On(width, height, px, py)
      ensures PixelAt(rgba, width, height, px, py) == PaintOver(BLANK, [], px, py)
    {
      SpotOnRaster(width, height, px, py);
    }
  }

  lemma RowStarts(look: Look, cell: nat, cols: nat, row: nat, line: Line, done: seq<Rect>)
    requires "text" in look.colors
    ensures Shown(LineCells(line[..0]), cols) == [] && line[..|line|] == line
    ensures done + RowRects(look, cell, Shown(LineCells(line[..0]), cols), row) == done
  {
  }

  /** The picture of the lines: the fills of every shown cell, row by row, over the background. */
  method RasterLines(look: Look, cell: nat, cols: nat, rows: nat, lines: seq<Line>) returns (out: Raster)
    requires "text" in look.colors
    ensures fresh(out.rgba) && Sized(out) && out.width == cols * cell && out.height == rows * (cell * 2)
    ensures Shows(out.rgba[..], out.width, out.height, PageRects(look, cell, cols, rows, lines, Min(rows, |lines|)))
  {
    hide Shows, RowRects, Shown;
    var width, height := cols * cell, rows * (cell * 2);
    var rgba := new Byte[4 * (width * height)](_ => 0);
    out := Raster(width, height, rgba);
    BlankShows(rgba[..], width, height);
    var ground := Rect(0, 0, width, height, look.rgb(look.shade(look.background)));
    FillNext(out, ground, []);
    assert [] + [ground] == [ground];
    for row := 0 to Min(rows, |lines|)
      invariant Shows(out.rgba[..], width, height, PageRects(look, cell, cols, rows, lines, row))
    {
      var line := lines[row];
      ghost var done := PageRects(look, cell, cols, rows, lines, row);
      var col := 0;
      RowStarts(look, cell, cols, row, line, done);
      for i := 0 to |line|
        invariant col == |Shown(LineCells(line[..i]), cols)|
        invariant Shows(out.rgba[..], width, height, done + RowRects(look, cell, Shown(LineCells(line[..i]), cols), row))
      {
        LineCellsMore(line, i);
        col := DrawSpan(out, look, cell, cols, line[i], row, col, LineCells(line[..i]), done);
      }
    }
  }

  // ---------------------------------------------------------------------------
  // Cells keep to themselves

  predicate Within(r: Rect, x: int, y: int, w: int, h: int) {
    x <= r.x && r.x + r.w <= x + w && y <= r.y && r.y + r.h <= y + h
  }

  predicate AllWithin(rects: seq<Rect>, x: int, y: int, w: int, h: int) {
    forall i :: 0 <= i < |rects| ==> Within(rects[i], x, y, w, h)
  }

  lemma DotsFit(cell: nat)
    ensures cell >= 5 <==> DotLeft(cell) >= 0 && DotLeft(cell) + 5 * Dot(cell) <= cell
    ensures cell >= 5 ==> DotTop(cell) >= 0 && DotTop(cell) + 7 * Dot(cell) <= 2 * cell
  {
  }

  /** A dot of the glyph grid lies in its cell for every column and row of dots exactly when cells are five pixels or wider. */
  lemma DotsStayInside(cell: nat, x: int, y: int, colour: Colour)
    ensures (forall gx: nat, gy: nat | gx < 5 && gy < 7 :: Within(DotRect(cell, x, y, gx, gy, colour), x, y, cell, cell * 2)) <==> cell >= 5
  {
    DotsFit(cell);
    if cell >= 5 {
      forall gx: nat, gy: nat | gx < 5 && gy < 7 ensures Within(DotRect(cell, x, y, gx, gy, colour), x, y, cell, cell * 2) {
        assert gx * Dot(cell) + Dot(cell) <= 5 * Dot(cell) && gy * Dot(cell) + Dot(cell) <= 7 * Dot(cell);
      }
    } else {
      assert !Within(DotRect(cell, x, y, 0, 0, colour), x, y, cell, cell * 2);
    }
  }

  lemma {:induction false} GlyphWithin(cell: nat, glyph: (int, int) -> bool, x: int, y: int, colour: Colour, k: nat)
    requires cell >= 5 && k <= 35
    ensures AllWithin(GlyphRects(cell, glyph, x, y, colour, k), x, y, cell, cell * 2)
  {
    if k > 0 {
      GlyphWithin(cell, glyph, x, y, colour, k - 1);
      DotsStayInside(cell, x, y, colour);
      assert Within(DotRect(cell, x, y, (k - 1) % 5, (k - 1) / 5, colour), x, y, cell, cell * 2);
    }
  }

  lemma BoxWithin(cell: nat, arms: Arms, x: int, y: int, fg: Colour)
    requires cell > 0
    ensures AllWithin(BoxRects(cell, arms, x, y, fg), x, y, cell, cell * 2)
  {
  }

  lemma BothWithin(a: seq<Rect>, b: seq<Rect>, x: int, y: int, w: int, h: int)
    requires AllWithin(a, x, y, w, h) && AllWithin(b, x, y, w, h)
    ensures AllWithin(a + b, x, y, w, h)
  {
  }

  lemma InkWithin(look: Look, cell: nat, c: Cell, x: int, y: int)
    requires cell >= 5 && "text" in look.colors
    ensures AllWithin(InkRects(look, cell, c, x, y), x, y, cell, cell * 2)
  {
    hide BoxArms, BoxRects, GlyphRects, Foreground, DotColour;
    if BoxArms(c.shown).Some? { BoxWithin(cell, BoxArms(c.shown).value, x, y, look.rgb(Foreground(look, c.span))); }
    if c.shown in look.font { GlyphWithin(cell, look.font[c.shown], x, y, DotColour(look, c.span), 35); }
  }

  /** Every fill for a character lies in the character's own cell. */
  lemma CellWithin(look: Look, cell: nat, c: Cell, x: int, y: int)
    requires cell >= 5 && "text" in look.colors
    ensures AllWithin(CellRects(look, cell, c, x, y), x, y, cell, cell * 2)
  {
    hide InkRects, Background;
    InkWithin(look, cell, c, x, y);
    BothWithin(BackRects(look, cell, c, x, y), InkRects(look, cell, c, x, y), x, y, cell, cell * 2);
  }

  lemma {:induction false} Untouched(under: Pixel, rects: seq<Rect>, x: int, y: int, w: int, h: int, px: int, py: int)
    requires AllWithin(rects, x, y, w, h) && !(x <= px < x + w && y <= py < y + h)
    ensures PaintOver(under, rects, px, py) == under
  {
    if rects != [] { Untouched(under, rects[..|rects| - 1], x, y, w, h, px, py); }
  }

  function Moved(r: Rect, x: int, y: int): Rect { Rect(r.x + x, r.y + y, r.w, r.h, r.colour) }

  function AllMoved(rects: seq<Rect>, x: int, y: int): (m: seq<Rect>)
    ensures |m| == |rects|
  {
    seq(|rects|, i requires 0 <= i < |rects| => Moved(rects[i], x, y))
  }

  lemma {:induction false} PaintMoved(under: Pixel, rects: seq<Rect>, x: int, y: int, px: int, py: int)
    ensures PaintOver(under, AllMoved(rects, x, y), px, py) == PaintOver(under, rects, px - x, py - y)
  {
    if rects != [] {
      var n := |rects| - 1;
      assert AllMoved(rects, x, y)[..n] == AllMoved(rects[..n], x, y);
      PaintMoved(under, rects[..n], x, y, px, py);
    }
  }

  lemma MovedBoth(a: seq<Rect>, b: seq<Rect>, x: int, y: int)
    ensures AllMoved(a + b, x, y) == AllMoved(a, x, y) + AllMoved(b, x, y)
  {
  }

  lemma WhenMoved(c: bool, r: Rect, x: int, y: int)
    ensures When(c, Moved(r, x, y)) == AllMoved(When(c, r), x, y)
  {
  }

  lemma BoxMoved(cell: nat, arms: Arms, x: int, y: int, fg: Colour)
    ensures BoxRects(cell, arms, x, y, fg) == AllMoved(BoxRects(cell, arms, 0, 0, fg), x, y)
  {
    hide When, AllMoved;
    var m, t := cell / 2, Thickness(cell);
    var up, down := Rect(m, 0, t, cell, fg), Rect(m, cell, t, cell, fg);
    var left, right := Rect(0, cell, m + t, t, fg), Rect(m, cell, cell - m, t, fg);
    WhenMoved(arms.up, up, x, y);
    WhenMoved(arms.down, down, x, y);
    WhenMoved(arms.left, left, x, y);
    WhenMoved(arms.right, right, x, y);
    MovedBoth(When(arms.up, up), When(arms.down, down), x, y);
    MovedBoth(When(arms.up, up) + When(arms.down, down), When(arms.left, left), x, y);
    MovedBoth(When(arms.up, up) + When(arms.down, down) + When(arms.left, left), When(arms.right, right), x, y);
  }

  lemma {:induction false} GlyphMoved(cell: nat, glyph: (int, int) -> bool, x: int, y: int, colour: Colour, k: nat)
    ensures GlyphRects(cell, glyph, x, y, colour, k) == AllMoved(GlyphRects(cell, glyph, 0, 0, colour, k), x, y)
  {
    if k > 0 { GlyphMoved(cell, glyph, x, y, colour, k - 1); }
  }

  lemma InkMoved(look: Look, cell: nat, c: Cell, x: int, y: int)
    requires "text" in look.colors
    ensures InkRects(look, cell, c, x, y) == AllMoved(InkRects(look, cell, c, 0, 0), x, y)
  {
    hide BoxArms, BoxRects, GlyphRects, Foreground, DotColour;
    if BoxArms(c.shown).Some? { BoxMoved(cell, BoxArms(c.shown).value, x, y, look.rgb(Foreground(look, c.span))); }
    if c.shown in look.font { GlyphMoved(cell, look.font[c.shown], x, y, DotColour(look, c.span), 35); }
  }

  /** A character is drawn alike wherever its cell is. */
  lemma CellMoved(look: Look, cell: nat, c: Cell, x: int, y: int)
    requires "text" in look.colors
    ensures CellRects(look, cell, c, x, y) == AllMoved(CellRects(look, cell, c, 0, 0), x, y)
  {
    hide InkRects, Background;
    InkMoved(look, cell, c, x, y);
    MovedBoth(BackRects(look, cell, c, 0, 0), InkRects(look, cell, c, 0, 0), x, y);
  }

  /** The pixel at (dx, dy) of a cell that shows `c`, over a page pixel. */
  function CellPixel(look: Look, cell: nat, c: Cell, under: Pixel, dx: int, dy: int): Pixel
    requires "text" in look.colors
  {
    PaintOver(under, CellRects(look, cell, c, 0, 0), dx, dy)
  }

  /** A row's fills, seen from pixel (dx, dy) of its cell `col`. */
  lemma {:induction false} RowPixel(
      look: Look, cell: nat, cells: seq<Cell>, row: nat, under: Pixel, col: nat, dx: nat, dy: nat)
    requires cell >= 5 && "text" in look.colors && dx < cell && dy < cell * 2
    ensures PaintOver(under, RowRects(look, cell, cells, row), col * cell + dx, row * (cell * 2) + dy)
         == if col < |cells| then CellPixel(look, cell, cells[col], under, dx, dy) else under
  {
    hide CellRects;
    if cells != [] {
      var n := |cells| - 1;
      var px, py := col * cell + dx, row * (cell * 2) + dy;
      var before, rects := RowRects(look, cell, cells[..n], row), CellRects(look, cell, cells[n], n * cell, row * (cell * 2));
      PaintOverBoth(under, before, rects, px, py);
      RowPixel(look, cell, cells[..n], row, under, col, dx, dy);
      if col == n {
        CellMoved(look, cell, cells[n], n * cell, row * (cell * 2));
        PaintMoved(under, CellRects(look, cell, cells[n], 0, 0), n * cell, row * (cell * 2), px, py);
      } else {
        CellWithin(look, cell, cells[n], n * cell, row * (cell * 2));
        ColumnsApart(cell, col, n, dx);
        Untouched(PaintOver(under, before, px, py), rects, n * cell, row * (cell * 2), cell, cell * 2, px, py);
      }
    }
  }

  lemma ColumnsApart(cell: nat, a: nat, b: nat, dx: nat)
    requires dx < cell && a != b
    ensures !(b * cell <= a * cell + dx < b * cell + cell)
  {
    if a < b {
      assert (a + 1) * cell <= b * cell;
    } else {
      assert (b + 1) * cell <= a * cell;
    }
  }

  lemma {:induction false} RowWithin(look: Look, cell: nat, cells: seq<Cell>, row: nat)
    requires cell >= 5 && "text" in look.colors
    ensures AllWithin(RowRects(look, cell, cells, row), 0, row * (cell * 2), |cells| * cell, cell * 2)
  {
    hide CellRects;
    if cells != [] {
      var n := |cells| - 1;
      RowWithin(look, cell, cells[..n], row);
      CellWithin(look, cell, cells[n], n * cell, row * (cell * 2));
      assert |cells| * cell == n * cell + cell;
    }
  }

  function Ground(look: Look): Pixel { Pixel(look.rgb(look.shade(look.background)), 255) }

  /** The pixel (dx, dy) of cell `col` of row `row`, from that cell alone. */
  function OwnPixel(look: Look, cell: nat, lines: seq<Line>, col: nat, row: nat, dx: int, dy: int): Pixel
    requires "text" in look.colors
  {
    if row < |lines| && col < |LineCells(lines[row])| then CellPixel(look, cell, LineCells(lines[row])[col], Ground(look), dx, dy)
    else Ground(look)
  }

  lemma GroundCovers(look: Look, cell: nat, cols: nat, rows: nat, lines: seq<Line>, px: nat, py: nat)
    requires "text" in look.colors && px < cols * cell && py < rows * (cell * 2)
    ensures PaintOver(BLANK, PageRects(look, cell, cols, rows, lines, 0), px, py) == Ground(look)
  {
  }

  lemma CellOnPage(cell: nat, cols: nat, col: nat, dx: nat)
    requires col < cols && dx < cell
    ensures col * cell + dx < cols * cell
  {
    assert (col + 1) * cell <= cols * cell;
  }

  lemma NoRowsSeen(look: Look, cell: nat, cols: nat, rows: nat, lines: seq<Line>, col: nat, row: nat, dx: nat, dy: nat)
    requires "text" in look.colors && dx < cell && dy < cell * 2 && col < cols && row < rows
    ensures PaintOver(BLANK, PageRects(look, cell, cols, rows, lines, 0), col * cell + dx, row * (cell * 2) + dy) == Ground(look)
  {
    hide PageRects, PaintOver, Ground;
    CellOnPage(cell, cols, col, dx);
    CellOnPage(cell * 2, rows, row, dy);
    GroundCovers(look, cell, cols, rows, lines, col * cell + dx, row * (cell * 2) + dy);
  }

  /** The fills of row `k`, seen from a pixel of row `row`. */
  lemma RowSeen(look: Look, cell: nat, cells: seq<Cell>, k: nat, under: Pixel, col: nat, row: nat, dx: nat, dy: nat)
    requires cell >= 5 && "text" in look.colors && dx < cell && dy < cell * 2
    ensures PaintOver(under, RowRects(look, cell, cells, k), col * cell + dx, row * (cell * 2) + dy)
         == if row == k && col < |cells| then CellPixel(look, cell, cells[col], under, dx, dy) else under
  {
    hide RowRects, CellPixel, PaintOver, AllWithin;
    if row == k {
      RowPixel(look, cell, cells, row, under, col, dx, dy);
    } else {
      RowWithin(look, cell, cells, k);
      ColumnsApart(cell * 2, row, k, dy);
      Untouched(under, RowRects(look, cell, cells, k), 0, k * (cell * 2), |cells| * cell, cell * 2, col * cell + dx, row * (cell * 2) + dy);
    }
  }

  lemma PageRectsMore(look: Look, cell: nat, cols: nat, rows: nat, lines: seq<Line>, n: nat, px: int, py: int)
    requires "text" in look.colors && 0 < n <= |lines|
    ensures PaintOver(BLANK, PageRects(look, cell, cols, rows, lines, n), px, py)
         == PaintOver(PaintOver(BLANK, PageRects(look, cell, cols, rows, lines, n - 1), px, py),
                      RowRects(look, cell, Shown(LineCells(lines[n - 1]), cols), n - 1), px, py)
  {
    hide RowRects, LineCells, PaintOver, Shown;
    PaintOverBoth(BLANK, PageRects(look, cell, cols, rows, lines, n - 1),
                  RowRects(look, cell, Shown(LineCells(lines[n - 1]), cols), n - 1), px, py);
  }

  /** The page of the first `n` rows, seen from pixel (dx, dy) of cell `col` of row `row`. */
  lemma {:induction false} PagePixel(
      look: Look, cell: nat, cols: nat, rows: nat, lines: seq<Line>, n: nat, col: nat, row: nat, dx: nat, dy: nat)
    requires cell >= 5 && "text" in look.colors && n <= |lines| && dx < cell && dy < cell * 2 && col < cols && row < rows
    ensures PaintOver(BLANK, PageRects(look, cell, cols, rows, lines, n), col * cell + dx, row * (cell * 2) + dy)
         == OwnPixel(look, cell, lines[..n], col, row, dx, dy)
  {
    hide RowRects, CellPixel, LineCells, PaintOver, Ground, PageRects;
    if n == 0 {
      NoRowsSeen(look, cell, cols, rows, lines, col, row, dx, dy);
    } else {
      PageRectsMore(look, cell, cols, rows, lines, n, col * cell + dx, row * (cell * 2) + dy);
      PagePixel(look, cell, cols, rows, lines, n - 1, col, row, dx, dy);
      RowSeen(look, cell, Shown(LineCells(lines[n - 1]), cols), n - 1, OwnPixel(look, cell, lines[..n - 1], col, row, dx, dy),
              col, row, dx, dy);
    }
  }

  lemma Monotone(a: int, b: int, c: nat)
    ensures a >= b ==> a * c >= b * c
  {
    if a >= b { assert a * c - b * c == (a - b) * c; }
  }

  /** Every pixel of the raster is a pixel of one of its cells. */
  lemma OwnCell(size: nat, count: nat, p: nat) returns (at: nat, d: nat)
    requires p < count * size
    ensures at < count && d < size && p == at * size + d
  {
    at, d := p / size, p % size;
    Monotone(at, count, size);
  }

  lemma PixelOfCell(
      rgba: seq<Byte>, width: nat, height: nat, look: Look, cell: nat, cols: nat, rows: nat, lines: seq<Line>,
      col: nat, row: nat, dx: nat, dy: nat)
    requires cell >= 5 && "text" in look.colors && width == cols * cell && height == rows * (cell * 2)
    requires |rgba| == 4 * (width * height)
    requires Shows(rgba, width, height, PageRects(look, cell, cols, rows, lines, Min(rows, |lines|)))
    requires col < cols && row < rows && dx < cell && dy < cell * 2
    ensures On(width, height, col * cell + dx, row * (cell * 2) + dy)
    ensures PixelAt(rgba, width, height, col * cell + dx, row * (cell * 2) + dy) == OwnPixel(look, cell, lines, col, row, dx, dy)
  {
    hide PixelAt, PageRects, CellPixel, LineCells, PaintOver, Ground;
    CellOnPage(cell, cols, col, dx);
    CellOnPage(cell * 2, rows, row, dy);
    PagePixel(look, cell, cols, rows, lines, Min(rows, |lines|), col, row, dx, dy);
  }

  /** Every pixel of the raster is a pixel (dx, dy) of one cell, and only the character and the style of that cell matter. */
  lemma EachPixelIsItsCells(
      rgba: seq<Byte>, width: nat, height: nat, look: Look, cell: nat, cols: nat, rows: nat, lines: seq<Line>, px: nat, py: nat)
      returns (col: nat, row: nat, dx: nat, dy: nat)
    requires cell >= 5 && "text" in look.colors && width == cols * cell && height == rows * (cell * 2)
    requires |rgba| == 4 * (width * height) && On(width, height, px, py)
    requires Shows(rgba, width, height, PageRects(look, cell, cols, rows, lines, Min(rows, |lines|)))
    ensures col < cols && row < rows && dx < cell && dy < cell * 2 && px == col * cell + dx && py == row * (cell * 2) + dy
    ensures PixelAt(rgba, width, height, px, py) == OwnPixel(look, cell, lines, col, row, dx, dy)
  {
    hide PixelAt, PageRects, CellPixel, LineCells, PaintOver, Ground, Shows, OwnPixel;
    col, dx := OwnCell(cell, cols, px);
    row, dy := OwnCell(cell * 2, rows, py);
    PixelOfCell(rgba, width, height, look, cell, cols, rows, lines, col, row, dx, dy);
  }

  // ---------------------------------------------------------------------------
  // What a cell looks like

  function BackPixel(look: Look, c: Cell, under: Pixel): Pixel {
    var bg := Background(look, c.span);
    if bg.Some? && bg.value != "" then Pixel(look.rgb(look.shade(bg.value)), 255) else under
  }

  lemma CellPixelIsInkOverBack(look: Look, cell: nat, c: Cell, under: Pixel, dx: nat, dy: nat)
    requires "text" in look.colors && dx < cell && dy < cell * 2
    ensures CellPixel(look, cell, c, under, dx, dy) == PaintOver(BackPixel(look, c, under), InkRects(look, cell, c, 0, 0), dx, dy)
  {
    hide InkRects, Background;
    PaintOverBoth(under, BackRects(look, cell, c, 0, 0), InkRects(look, cell, c, 0, 0), dx, dy);
  }

  lemma NoPaint(under: Pixel, px: int, py: int)
    ensures PaintOver(under, [], px, py) == under
  {
  }

  lemma OnePaint(under: Pixel, r: Rect, px: int, py: int)
    ensures PaintOver(under, [r], px, py) == if Covers(r, px, py) then Pixel(r.colour, 255) else under
  {
  }

  /** Blocks are exact at every size: a half block is a square of ink over a square of background, and no pixel is left over. */
  lemma BlocksAreExact(look: Look, cell: nat, c: Cell, under: Pixel, dx: nat, dy: nat)
    requires "text" in look.colors && dx < cell && dy < cell * 2
    requires c.shown in {FULL_BLOCK, UPPER_HALF, LOWER_HALF, ' '}
    ensures CellPixel(look, cell, c, under, dx, dy)
         == if c.shown == FULL_BLOCK || (c.shown == UPPER_HALF && dy < cell) || (c.shown == LOWER_HALF && dy >= cell)
            then Pixel(look.rgb(Foreground(look, c.span)), 255)
            else BackPixel(look, c, under)
  {
    CellPixelIsInkOverBack(look, cell, c, under, dx, dy);
    hide CellPixel, Background, Foreground, BackPixel, BoxRects, GlyphRects, BoxArms, PaintOver;
    var back, ink := BackPixel(look, c, under), look.rgb(Foreground(look, c.span));
    NoPaint(back, dx, dy);
    OnePaint(back, Rect(0, 0, cell, cell * 2, ink), dx, dy);
    OnePaint(back, Rect(0, 0, cell, cell, ink), dx, dy);
    OnePaint(back, Rect(0, cell, cell, cell, ink), dx, dy);
  }

  /** The first `k` dots of a glyph are its bitmap, every bit blown up to a square. */
  ghost predicate Inked(cell: nat, glyph: (int, int) -> bool, k: nat, dx: int, dy: int) {
    var gx, gy := (dx - DotLeft(cell)) / Dot(cell), (dy - DotTop(cell)) / Dot(cell);
    0 <= gx < 5 && 0 <= gy && gy * 5 + gx < k && glyph(gy, gx)
  }

  lemma DotCovers(cell: nat, gx: nat, gy: nat, colour: Colour, dx: int, dy: int)
    ensures Covers(DotRect(cell, 0, 0, gx, gy, colour), dx, dy)
        <==> (dx - DotLeft(cell)) / Dot(cell) == gx && (dy - DotTop(cell)) / Dot(cell) == gy
  {
    QuotientIs(dx - DotLeft(cell), Dot(cell), gx);
    QuotientIs(dy - DotTop(cell), Dot(cell), gy);
  }

  lemma QuotientIs(a: int, d: nat, q: nat)
    requires d > 0
    ensures a / d == q <==> q * d <= a < q * d + d
  {
    var p := a / d;
    if p < q {
      assert (p + 1) * d <= q * d;
    } else if q < p {
      assert (q + 1) * d <= p * d;
    }
  }

  lemma InkedMore(cell: nat, glyph: (int, int) -> bool, gx: nat, gy: nat, colour: Colour, dx: int, dy: int)
    requires gx < 5
    ensures Inked(cell, glyph, gy * 5 + gx + 1, dx, dy)
        <==> Inked(cell, glyph, gy * 5 + gx, dx, dy) || (glyph(gy, gx) && Covers(DotRect(cell, 0, 0, gx, gy, colour), dx, dy))
  {
    DotCovers(cell, gx, gy, colour, dx, dy);
    hide DotRect, Covers, DotLeft, DotTop, Dot;
  }

  lemma {:induction false} GlyphIsItsBitmap(
      cell: nat, glyph: (int, int) -> bool, colour: Colour, under: Pixel, k: nat, dx: int, dy: int)
    requires k <= 35
    ensures PaintOver(under, GlyphRects(cell, glyph, 0, 0, colour, k), dx, dy)
         == if Inked(cell, glyph, k, dx, dy) then Pixel(colour, 255) else under
  {
    if k == 0 {
    } else {
      hide PaintOver, GlyphRects, DotRect, Covers, Inked, When;
      var gx, gy := (k - 1) % 5, (k - 1) / 5;
      assert gy * 5 + gx == k - 1;
      var dot := DotRect(cell, 0, 0, gx, gy, colour);
      var before := GlyphRects(cell, glyph, 0, 0, colour, k - 1);
      GlyphIsItsBitmap(cell, glyph, colour, under, k - 1, dx, dy);
      GlyphRectsMore(cell, glyph, 0, 0, colour, gx, gy);
      InkedMore(cell, glyph, gx, gy, colour, dx, dy);
      PaintOverBoth(under, before, When(glyph(gy, gx), dot), dx, dy);
      WhenPaints(PaintOver(under, before, dx, dy), glyph(gy, gx), dot, dx, dy);
      DotsAlike(cell, gx, gy, colour);
    }
  }

  lemma DotsAlike(cell: nat, gx: nat, gy: nat, colour: Colour)
    ensures DotRect(cell, 0, 0, gx, gy, colour).colour == colour
  {
  }

  lemma WhenPaints(under: Pixel, c: bool, r: Rect, dx: int, dy: int)
    ensures PaintOver(under, When(c, r), dx, dy) == if c && Covers(r, dx, dy) then Pixel(r.colour, 255) else under
  {
  }

  predicate BoxInked(cell: nat, arms: Arms, dx: int, dy: int) {
    var m, t := cell / 2, Thickness(cell);
    || (arms.up && m <= dx < m + t && 0 <= dy < cell)
    || (arms.down && m <= dx < m + t && cell <= dy < 2 * cell)
    || (arms.left && 0 <= dx < m + t && cell <= dy < cell + t)
    || (arms.right && m <= dx < cell && cell <= dy < cell + t)
  }

  lemma BoxIsItsArms(cell: nat, arms: Arms, fg: Colour, under: Pixel, dx: int, dy: int)
    ensures PaintOver(under, BoxRects(cell, arms, 0, 0, fg), dx, dy)
         == if BoxInked(cell, arms, dx, dy) then Pixel(fg, 255) else under
  {
    hide When, PaintOver;
    var m, t := cell / 2, Thickness(cell);
    var up, down := Rect(m, 0, t, cell, fg), Rect(m, cell, t, cell, fg);
    var left, right := Rect(0, cell, m + t, t, fg), Rect(m, cell, cell - m, t, fg);
    var a, b, c, d := When(arms.up, up), When(arms.down, down), When(arms.left, left), When(arms.right, right);
    PaintOverBoth(under, a + b + c, d, dx, dy);
    PaintOverBoth(under, a + b, c, dx, dy);
    PaintOverBoth(under, a, b, dx, dy);
    WhenPaints(under, arms.up, up, dx, dy);
    WhenPaints(PaintOver(under, a, dx, dy), arms.down, down, dx, dy);
    WhenPaints(PaintOver(under, a + b, dx, dy), arms.left, left, dx, dy);
    WhenPaints(PaintOver(under, a + b + c, dx, dy), arms.right, right, dx, dy);
  }

  /** Lines join: on a shared edge, two cells are inked at the same pixels when both have the arm that crosses it. */
  lemma ArmsMeet(cell: nat, a: Arms, b: Arms, d: nat)
    requires cell >= 3
    ensures a.right && b.left && d < cell * 2 ==> BoxInked(cell, a, cell - 1, d) == BoxInked(cell, b, 0, d) == (cell <= d < cell + Thickness(cell))
    ensures a.down && b.up && d < cell ==>
              BoxInked(cell, a, d, cell * 2 - 1) == BoxInked(cell, b, d, 0) == (cell / 2 <= d < cell / 2 + Thickness(cell))
    ensures !a.right && d < cell * 2 ==> !BoxInked(cell, a, cell - 1, d)
    ensures !b.left && d < cell * 2 ==> !BoxInked(cell, b, 0, d)
    ensures !a.down && d < cell ==> !BoxInked(cell, a, d, cell * 2 - 1)
    ensures !b.up && d < cell ==> !BoxInked(cell, b, d, 0)
  {
  }

  // ---------------------------------------------------------------------------
  // Cells under five pixels

  function Ink(hex: string): Colour { if hex == "ink" then Colour(255, 255, 255) else Colour(0, 0, 0) }

  /** Five columns of dots from a number a row, the leftmost the largest bit. */
  function Dots(rows: seq<nat>): (int, int) -> bool {
    (gy, gx) => 0 <= gy < |rows| && 0 <= gx < 5 && rows[gy] / [16, 8, 4, 2, 1][gx] % 2 == 1
  }

  /** The capital E of the font. */
  const CAPITAL_E: (int, int) -> bool := Dots([0x1F, 0x10, 0x10, 0x1E, 0x10, 0x10, 0x1F])

  const WHITE := Colour(255, 255, 255)

  function Sample(): Look {
    Look("paper", map["text" := "ink"], Ink, hex => hex, map['E' := CAPITAL_E])
  }

  function SampleLine(): Line { [Span(" E", None, None, None, None, false)] }

  lemma SampleFills(cell: nat)
    ensures LineCells(SampleLine()) == [Cell(' ', SampleLine()[0]), Cell('E', SampleLine()[0])]
    ensures PageRects(Sample(), cell, 2, 1, [SampleLine()], 1)
         == PageRects(Sample(), cell, 2, 1, [SampleLine()], 0) + GlyphRects(cell, CAPITAL_E, cell, 0, WHITE, 35)
  {
    hide GlyphRects, Dots;
    var look, span := Sample(), SampleLine()[0];
    var cells := [Cell(' ', span), Cell('E', span)];
    assert SampleLine()[..0] == [] && LineCells([]) == [];
    assert LineCells(SampleLine()) == cells && Shown(cells, 2) == cells;
    assert RowRects(look, cell, [], 0) == [] && cells[..1][..0] == [];
    assert RowRects(look, cell, cells[..1], 0) == [];
    assert RowRects(look, cell, cells, 0) == GlyphRects(cell, CAPITAL_E, cell, 0, WHITE, 35);
  }

  /** The pixel row where the letter sticks out. */
  function LeakRow(cell: nat): nat { if cell == 2 then 1 else 0 }

  lemma LetterDots()
    ensures CAPITAL_E(0, 0) && CAPITAL_E(1, 0) && CAPITAL_E(3, 1)
  {
  }

  lemma LetterSticksOut(cell: nat)
    requires 1 <= cell < 5
    ensures Inked(cell, CAPITAL_E, 35, -1, LeakRow(cell))
  {
    LetterDots();
    hide Dots;
    assert Dot(cell) == 1 && DotLeft(cell) == (if cell <= 2 then -2 else -1);
    assert DotTop(cell) == (if cell == 1 then -3 else if cell == 2 then -2 else if cell == 3 then -1 else 0);
  }

  lemma LetterLeaks(cell: nat, under: Pixel)
    requires 1 <= cell < 5
    ensures PaintOver(under, GlyphRects(cell, CAPITAL_E, cell, 0, WHITE, 35), cell - 1, LeakRow(cell)) == Pixel(WHITE, 255)
  {
    hide GlyphRects, PaintOver, Inked, LeakRow, Dots;
    LetterSticksOut(cell);
    GlyphIsItsBitmap(cell, CAPITAL_E, WHITE, under, 35, -1, LeakRow(cell));
    GlyphMoved(cell, CAPITAL_E, cell, 0, WHITE, 35);
    PaintMoved(under, GlyphRects(cell, CAPITAL_E, 0, 0, WHITE, 35), cell, 0, cell - 1, LeakRow(cell));
  }

  /** Below five pixels a glyph reaches into the cell on its left: that cell is empty, and its last column is inked. */
  lemma SmallCellsLeak(cell: nat)
    requires 1 <= cell < 5
    ensures PaintOver(BLANK, PageRects(Sample(), cell, 2, 1, [SampleLine()], 1), cell - 1, LeakRow(cell))
         != OwnPixel(Sample(), cell, [SampleLine()], 0, 0, cell - 1, LeakRow(cell))
  {
    hide GlyphRects, PageRects, LineCells, PaintOver, Dots;
    SampleFills(cell);
    var before := PageRects(Sample(), cell, 2, 1, [SampleLine()], 0);
    PaintOverBoth(BLANK, before, GlyphRects(cell, CAPITAL_E, cell, 0, WHITE, 35), cell - 1, LeakRow(cell));
    LetterLeaks(cell, PaintOver(BLANK, before, cell - 1, LeakRow(cell)));
    BlocksAreExact(Sample(), cell, Cell(' ', SampleLine()[0]), Ground(Sample()), cell - 1, LeakRow(cell));
  }
}
