/** End to end: what the receiver shows after any session whose last frame is made of sound rows, and exactly which frames hide
    what was drawn before them. */
module Frames {
  import opened Strings
  import opened Terminal
  import opened Chunking
  import opened Snapshot
  import opened Tiling
  import opened Renderer
  import opened Redraw
  import opened Layout
  import opened Session

  function LineAt(rows: seq<Line>, y: nat): Line { if y < |rows| then rows[y] else [] }

  predicate SoundFrame(m: Metrics, rows: seq<Line>, width: nat, height: nat)
    requires 1 <= width
  {
    forall y :: 0 <= y < height ==> SoundLine(m, LineAt(rows, y), RoomOf(width, height, y))
  }

  /** A screen row shows glyphs: each in its cells and in its style, and blanks without one after them. */
  predicate RowHolds(cells: Row, inks: Row, glyphs: seq<Glyph>) {
    && |cells| == |inks| && |CellRow(glyphs)| == |InkRow(glyphs)| <= |cells|
    && cells == CellRow(glyphs) + BlankRow(|cells| - |CellRow(glyphs)|, " ")
    && forall k :: 0 <= k < |cells| && cells[k] != "" ==> inks[k] == if k < |InkRow(glyphs)| then InkRow(glyphs)[k] else ""
  }

  predicate FrameHeld(s: Screen, rows: seq<Line>)
    requires Shaped(s)
  {
    forall y :: 0 <= y < s.rows ==> RowHolds(s.grid[y], s.styles[y], GlyphsOfLine(LineAt(rows, y), Room(s, y)))
  }

  /** Every non-empty cell of every row of the frame has a style of its own. */
  ghost predicate Forgets(m: Metrics, rows: seq<Line>, width: nat, height: nat)
    requires 2 <= width
  {
    forall y :: 0 <= y < height ==> SelfStyled(RowPicture(m, rows, width, height, y))
  }

  function RowPicture(m: Metrics, rows: seq<Line>, width: nat, height: nat, y: nat): (a: Painted)
    requires 2 <= width
    ensures PenShaped(a.pen) && |a.pen.cells| == width
  {
    Picture(m, width, RoomOf(width, height, y), EncodeRow(rows, width, height, y).out)
  }

  /** Sound rows are what a caller of the renderer owes it, and they hide what was there before. */
  lemma SoundFrameMeasured(m: Metrics, rows: seq<Line>, width: nat, height: nat)
    requires 2 <= width && SoundFrame(m, rows, width, height)
    ensures FrameMeasured(m, rows, width, height) && Forgets(m, rows, width, height)
  {
    hide Measured, SoundLine, EncodeRow, Encode, Picture, GlyphsOfLine, CellRow, InkRow, SelfStyled;
    forall y | 0 <= y < height
      ensures Measured(m, width, RoomOf(width, height, y), EncodeRow(rows, width, height, y))
      ensures SelfStyled(RowPicture(m, rows, width, height, y))
    {
      SoundLineMeasured(m, LineAt(rows, y), width, RoomOf(width, height, y));
      EncodeRowIs(rows, width, height, y);
    }
  }

  lemma ShownIsHeld(m: Metrics, cells: Row, inks: Row, rows: seq<Line>, width: nat, height: nat, y: nat)
    requires 2 <= width && y < height && SoundLine(m, LineAt(rows, y), RoomOf(width, height, y))
    requires RowShows(cells, inks, Picture(m, width, RoomOf(width, height, y), EncodeRow(rows, width, height, y).out))
    ensures RowHolds(cells, inks, GlyphsOfLine(LineAt(rows, y), RoomOf(width, height, y)))
  {
    hide Measured, SoundLine, EncodeRow, Encode, Picture, GlyphsOfLine, CellRow, InkRow;
    SoundLineMeasured(m, LineAt(rows, y), width, RoomOf(width, height, y));
    EncodeRowIs(rows, width, height, y);
  }

  /** After any session, a frame of sound rows is allowed, and the receiver shows exactly it: every row its glyphs, cut to the
      row's room, every glyph in its own cells and in its span's style, and blanks without a style. */
  lemma SoundFrameShown(m: Metrics, sys: System, events: seq<Event>, rows: seq<Line>, cursor: Option<Cursor>)
    requires Ready(m, sys) && Playable(m, sys, events)
    requires var s := PlayAll(m, sys, events).screen; SoundFrame(m, rows, s.cols, s.rows)
    ensures Allowed(m, PlayAll(m, sys, events), Draw(rows, cursor))
    ensures FrameHeld(Play(m, PlayAll(m, sys, events), Draw(rows, cursor)).screen, rows)
  {
    hide Drain, PlayAll, Playable, SoundLine, Picture, RowShows, RowHolds, Synced, Measured, FrameText, EncodeRow, Shaped, GlyphsOfLine;
    SessionKeepsReady(m, sys, events);
    var before := PlayAll(m, sys, events);
    ReadyIsShaped(m, before);
    CursorRow(before.screen);
    SoundFrameMeasured(m, rows, before.screen.cols, before.screen.rows);
    LastFrameShown(m, sys, events, rows, cursor);
    var s := Play(m, before, Draw(rows, cursor)).screen;
    CursorRow(s);
    forall y | 0 <= y < s.rows ensures RowHolds(s.grid[y], s.styles[y], GlyphsOfLine(LineAt(rows, y), Room(s, y))) {
      ShownIsHeld(m, s.grid[y], s.styles[y], rows, s.cols, s.rows, y);
    }
  }

  // ---------------------------------------------------------------------------
  // Which frames hide what was drawn before

  /** A session that ends, on a screen of this size, before the frame `last`. */
  ghost predicate EndsIn(m: Metrics, sys: System, events: seq<Event>, last: Event, width: nat, height: nat): (r: bool)
    ensures r ==> Shaped(sys.screen) && Playable(m, sys, events) && Allowed(m, PlayAll(m, sys, events), last)
  {
    && Ready(m, sys) && Playable(m, sys, events) && Allowed(m, PlayAll(m, sys, events), last)
    && PlayAll(m, sys, events).screen.cols == width && PlayAll(m, sys, events).screen.rows == height
  }

  function LastSnapshot(m: Metrics, sys: System, events: seq<Event>, last: Event): string
    requires Shaped(sys.screen) && Playable(m, sys, events) && Allowed(m, PlayAll(m, sys, events), last)
  {
    Ansi(Play(m, PlayAll(m, sys, events), last).screen)
  }

  /** Any two sessions that end in this frame on screens of this size end in the same snapshot. */
  ghost predicate HidesHistory(m: Metrics, rows: seq<Line>, width: nat, height: nat) {
    forall sys, events, cursor, sys', events', cursor' ::
      EndsIn(m, sys, events, Draw(rows, cursor), width, height) && EndsIn(m, sys', events', Draw(rows, cursor'), width, height) ==>
        LastSnapshot(m, sys, events, Draw(rows, cursor)) == LastSnapshot(m, sys', events', Draw(rows, cursor'))
  }

  lemma ShownAlike(cells: Row, inks: Row, cells': Row, inks': Row, a: Painted)
    requires PenShaped(a.pen) && SelfStyled(a) && RowShows(cells, inks, a) && RowShows(cells', inks', a)
    ensures cells == cells' && AnsiRow(cells, inks) == AnsiRow(cells', inks')
  {
    InkOfAgreeing(cells, inks, inks', 0);
  }

  /** After a frame that forgets, what came before is gone. */
  lemma SessionsAlike(m: Metrics, sys: System, events: seq<Event>, cursor: Option<Cursor>,
      sys': System, events': seq<Event>, cursor': Option<Cursor>, rows: seq<Line>, width: nat, height: nat)
    requires 2 <= width && Forgets(m, rows, width, height)
    requires EndsIn(m, sys, events, Draw(rows, cursor), width, height) && EndsIn(m, sys', events', Draw(rows, cursor'), width, height)
    ensures LastSnapshot(m, sys, events, Draw(rows, cursor)) == LastSnapshot(m, sys', events', Draw(rows, cursor'))
  {
    hide Drain, PlayAll, Playable, RowShows, Picture, SelfStyled, AnsiRow, FrameText, FrameMeasured, EncodeRow, Synced;
    var before, before' := PlayAll(m, sys, events), PlayAll(m, sys', events');
    LastFrameShown(m, sys, events, rows, cursor);
    LastFrameShown(m, sys', events', rows, cursor');
    SameSize(m, before, Draw(rows, cursor));
    SameSize(m, before', Draw(rows, cursor'));
    var s, t := Play(m, before, Draw(rows, cursor)).screen, Play(m, before', Draw(rows, cursor')).screen;
    forall y | 0 <= y < height ensures AnsiRow(s.grid[y], s.styles[y]) == AnsiRow(t.grid[y], t.styles[y]) {
      ShownAlike(s.grid[y], s.styles[y], t.grid[y], t.styles[y], RowPicture(m, rows, width, height, y));
    }
    assert AnsiRows(s) == AnsiRows(t);
  }

  lemma SameSize(m: Metrics, sys: System, event: Event)
    requires Shaped(sys.screen) && Allowed(m, sys, event) && event.Draw?
    ensures var r := Play(m, sys, event).screen; r.cols == sys.screen.cols && r.rows == sys.screen.rows
  {
    hide Drain, Shaped, FrameText, FrameMeasured;
  }

  // ---------------------------------------------------------------------------
  // Where an earlier frame shows through

  /** `n` bold blanks, and a frame with them in row `y`. */
  function Bold(n: nat): seq<Glyph> { seq(n, _ => Glyph(" ", 1, Sgr("1"))) }

  function BoldCells(n: nat): seq<Renderer.Cell> { seq(n, _ => Renderer.Cell(" ", 1)) }

  function BoldLine(n: nat): Line { [Span(BoldCells(n), Sgr("1"), None)] }

  function BoldFrame(y: nat, n: nat): seq<Line> { seq(y + 1, k => if k == y then BoldLine(n) else []) }

  lemma {:induction false} BoldKept(n: nat, room: nat)
    requires n <= room
    ensures Kept(BoldCells(n), Sgr("1"), room) == Bold(n) && TakeCells(BoldCells(n), room).width == n
    ensures n > 0 ==> TakeCells(BoldCells(n), room).text != ""
  {
    if n > 0 {
      assert BoldCells(n)[1..] == BoldCells(n - 1) && Bold(n) == [Glyph(" ", 1, Sgr("1"))] + Bold(n - 1);
      BoldKept(n - 1, room - 1);
    }
  }

  lemma {:induction false} WideLaid(glyphs: seq<Glyph>, pieces: seq<Glyph>)
    requires forall p :: p in pieces ==> p.width >= 1
    ensures LaidAll(glyphs, pieces) == glyphs + pieces
    decreases |pieces|
  {
    if pieces == [] {
      assert glyphs + pieces == glyphs;
    } else {
      WideLaid(glyphs + [pieces[0]], pieces[1..]);
      assert glyphs + [pieces[0]] + pieces[1..] == glyphs + pieces;
    }
  }

  lemma {:induction false} BoldRow(n: nat)
    ensures CellRow(Bold(n)) == BlankRow(n, " ") && InkRow(Bold(n)) == BlankRow(n, Sgr("1")) && WidthsOf(Bold(n)) == n
  {
    if n > 0 {
      assert Bold(n)[..n - 1] == Bold(n - 1);
      BoldRow(n - 1);
      assert BlankRow(n, " ") == BlankRow(n - 1, " ") + [" "] && BlankRow(n, Sgr("1")) == BlankRow(n - 1, Sgr("1")) + [Sgr("1")];
    }
  }

  lemma BoldGlyphs(n: nat, room: nat)
    requires 0 < n <= room
    ensures GlyphsOfLine(BoldLine(n), room) == Bold(n)
  {
    hide Kept, TakeCells, Bold, BoldCells, Sgr, LaidAll;
    BoldKept(n, room);
    assert BoldLine(n)[1..] == [] && KeptLine([], room - n) == [] && Bold(n) + [] == Bold(n) && [] + Bold(n) == Bold(n);
    BoldWide(n);
    WideLaid([], Bold(n));
  }

  lemma BoldWide(n: nat)
    ensures forall p :: p in Bold(n) ==> p.width >= 1
  {
  }

  lemma BoldReplays()
    ensures Replays(Sgr("1"))
  {
    assert ControlSequence(Sgr("1"), 3) && Sgr("1")[..4] == Sgr("1") && Sgr("1")[2..3] == "1" && Sgr("1")[4..] == "";
    ControlTokenIsControlSequence(Sgr("1"), 4);
  }

  lemma BoldIsSound(m: Metrics, n: nat, room: nat)
    requires Measures(m) && 0 < n <= room
    ensures SoundLine(m, BoldLine(n), room)
  {
    hide Replays, KeptLine, LaidAll, Sgr;
    BoldReplays();
    BoldGlyphs(n, room);
    forall i | 0 <= i < n ensures SoundAt(m, Bold(n), i, room) {
      assert Bold(n)[..i] == Bold(i) && " "[..1] == " ";
      BoldRow(i);
    }
  }

  lemma NothingIsSound(m: Metrics, room: nat)
    ensures SoundLine(m, [], room)
  {
  }

  lemma BoldFrameIsSound(m: Metrics, y: nat, n: nat, width: nat, height: nat)
    requires Measures(m) && 2 <= width && y < height && 0 < n <= RoomOf(width, height, y)
    ensures SoundFrame(m, BoldFrame(y, n), width, height)
  {
    hide SoundLine, BoldLine;
    BoldIsSound(m, n, RoomOf(width, height, y));
    forall j | 0 <= j < height ensures SoundLine(m, LineAt(BoldFrame(y, n), j), RoomOf(width, height, j)) {
      NothingIsSound(m, RoomOf(width, height, j));
    }
  }

  lemma NoEvents(m: Metrics, sys: System)
    requires Shaped(sys.screen)
    ensures Playable(m, sys, []) && PlayAll(m, sys, []) == sys
  {
  }

  lemma OneEvent(m: Metrics, sys: System, event: Event)
    requires Shaped(sys.screen) && Allowed(m, sys, event)
    ensures Playable(m, sys, [event]) && PlayAll(m, sys, [event]) == Play(m, sys, event)
  {
    hide Allowed, Play, Shaped;
    assert [event][1..] == [];
  }

  lemma HeldStyle(s: Screen, y: nat, n: nat, k: nat)
    requires Shaped(s) && y < s.rows && k < n <= Room(s, y) && FrameHeld(s, BoldFrame(y, n))
    ensures s.styles[y][k] == Sgr("1")
  {
    hide CellRow, InkRow, GlyphsOfLine, Sgr, BoldLine;
    BoldGlyphs(n, Room(s, y));
    BoldRow(n);
    assert RowHolds(s.grid[y], s.styles[y], GlyphsOfLine(LineAt(BoldFrame(y, n), y), Room(s, y)));
    assert s.grid[y][k] == BlankRow(n, " ")[k];
  }

  lemma FreshReady(m: Metrics, width: nat, height: nat)
    requires 2 <= width && 1 <= height
    ensures Ready(m, System(Fresh(width, height), map[])) && Fresh(width, height).cols == width && Fresh(width, height).rows == height
    ensures forall y, k :: 0 <= y < height && 0 <= k < width ==> Fresh(width, height).styles[y][k] == ""
  {
    hide Synced;
    FreshShaped(width, height);
    assert Cleared(Fresh(width, height)) == Fresh(width, height);
    ClearedSynced(m, Fresh(width, height));
  }

  /** After the bold frame, the style of its last blank is there. */
  lemma BoldDrawn(m: Metrics, sys: System, y: nat, k: nat)
    requires Measures(m) && Ready(m, sys) && y < sys.screen.rows && k < Room(sys.screen, y)
    ensures Allowed(m, sys, Draw(BoldFrame(y, k + 1), None))
    ensures var r := Play(m, sys, Draw(BoldFrame(y, k + 1), None));
            Ready(m, r) && r.screen.cols == sys.screen.cols && r.screen.rows == sys.screen.rows && r.screen.styles[y][k] == Sgr("1")
  {
    hide Drain, SoundFrame, BoldFrame, FrameText, Sgr, Shaped, FrameMeasured, FrameHeld, Play, PlayAll, Playable, Ready, Allowed;
    ReadyIsShaped(m, sys);
    CursorRow(sys.screen);
    NoEvents(m, sys);
    BoldFrameIsSound(m, y, k + 1, sys.screen.cols, sys.screen.rows);
    SoundFrameShown(m, sys, [], BoldFrame(y, k + 1), None);
    EventKeepsReady(m, sys, Draw(BoldFrame(y, k + 1), None));
    SameSize(m, sys, Draw(BoldFrame(y, k + 1), None));
    HeldStyle(Play(m, sys, Draw(BoldFrame(y, k + 1), None)).screen, y, k + 1, k);
  }

  /** Longer styles on the same cells make a longer snapshot. */
  lemma {:induction false} LongerInk(cells: Row, inks: Row, inks': Row, p: nat)
    requires |cells| == |inks| == |inks'| && p <= |cells|
    requires forall k :: p <= k < |cells| && cells[k] != "" ==> |inks[k]| <= |inks'[k]|
    ensures |Ink(cells, inks, p)| <= |Ink(cells, inks', p)|
    ensures (exists k :: p <= k < |cells| && cells[k] != "" && |inks[k]| < |inks'[k]|) ==>
              |Ink(cells, inks, p)| < |Ink(cells, inks', p)|
    decreases |cells| - p
  {
    if p < |cells| { LongerInk(cells, inks, inks', p + 1); }
  }

  lemma {:induction false} LongerJoin(a: seq<string>, b: seq<string>, sep: string)
    requires |a| == |b| && forall k :: 0 <= k < |a| ==> |a[k]| <= |b[k]|
    ensures |Join(a, sep)| <= |Join(b, sep)|
    ensures (exists k :: 0 <= k < |a| && |a[k]| < |b[k]|) ==> |Join(a, sep)| < |Join(b, sep)|
  {
    if |a| > 1 { LongerJoin(a[1..], b[1..], sep); }
  }

  /** `t` shows the cells of `s`, each in its style or in a longer one. */
  predicate Outstyles(s: Screen, t: Screen)
    requires Shaped(s) && Shaped(t)
  {
    && s.cols == t.cols && s.rows == t.rows && s.grid == t.grid
    && forall y, k :: 0 <= y < s.rows && 0 <= k < s.cols && s.grid[y][k] != "" ==> |s.styles[y][k]| <= |t.styles[y][k]|
  }

  lemma LongerAnsi(s: Screen, t: Screen, y: nat, k: nat)
    requires Shaped(s) && Shaped(t) && Outstyles(s, t) && y < s.rows && k < s.cols
    requires s.grid[y][k] != "" && |s.styles[y][k]| < |t.styles[y][k]|
    ensures Ansi(s) != Ansi(t)
  {
    hide Ink, Join;
    var a, b := AnsiRows(s), AnsiRows(t);
    forall j | 0 <= j < s.rows ensures |a[j]| <= |b[j]| && (j == y ==> |a[j]| < |b[j]|) {
      assert a[j] == AnsiRow(s.grid[j], s.styles[j]) && b[j] == AnsiRow(t.grid[j], t.styles[j]);
      LongerInk(s.grid[j], s.styles[j], t.styles[j], 0);
      assert j == y ==> s.grid[j][k] != "" && |s.styles[j][k]| < |t.styles[j][k]|;
    }
    assert |a[y]| < |b[y]|;
    LongerJoin(a, b, "\n");
  }

  /** A redrawn row over a row without styles, and over any other. */
  lemma RedoneOver(m: Metrics, p: Pen, q: Pen, cols: nat, room: nat, e: Encoded)
    requires 2 <= cols && AtRest(p, cols, room) && AtRest(q, cols, room) && Measured(m, cols, room, e)
    requires forall k :: 0 <= k < cols ==> p.inks[k] == ""
    ensures var a, b := Redone(m, p, room, e.out), Redone(m, q, room, e.out);
            var picture := Picture(m, cols, room, e.out);
            && a.cells == b.cells == picture.pen.cells
            && (forall k :: 0 <= k < cols ==> |a.inks[k]| <= |b.inks[k]|)
            && (forall k :: 0 <= k < cols && k !in picture.inked ==> a.inks[k] == "" && b.inks[k] == q.inks[k])
  {
    hide Paint, Measured, Picture;
    RedoneShows(m, p, cols, room, e);
    RedoneShows(m, q, cols, room, e);
    NotInked(m, p, cols, room, e);
    NotInked(m, q, cols, room, e);
  }

  lemma NotInked(m: Metrics, p: Pen, cols: nat, room: nat, e: Encoded)
    requires 2 <= cols && AtRest(p, cols, room) && Measured(m, cols, room, e)
    ensures var a := Redone(m, p, room, e.out);
            forall k :: 0 <= k < cols && k !in Picture(m, cols, room, e.out).inked ==> a.inks[k] == p.inks[k]
  {
    PaintedAlike(m, p, p, cols, room, e);
    PaintKeepsInks(m, Painted(p, "", {}), e.out);
    hide Paint, Agree;
  }

  /** The frame drawn on a screen without styles, and on one with a style where the frame has none of its own. */
  lemma StyleShowsThrough(m: Metrics, sys: System, sys': System, rows: seq<Line>, y: nat, k: nat)
    requires Ready(m, sys) && Ready(m, sys') && sys.screen.cols == sys'.screen.cols && sys.screen.rows == sys'.screen.rows
    requires FrameMeasured(m, rows, sys.screen.cols, sys.screen.rows) && y < sys.screen.rows && k < sys.screen.cols
    requires forall j, i :: 0 <= j < sys.screen.rows && 0 <= i < sys.screen.cols ==> sys.screen.styles[j][i] == ""
    requires sys'.screen.styles[y][k] != ""
    requires var a := RowPicture(m, rows, sys.screen.cols, sys.screen.rows, y); a.pen.cells[k] != "" && k !in a.inked
    ensures Ansi(Play(m, sys, Draw(rows, None)).screen) != Ansi(Play(m, sys', Draw(rows, None)).screen)
  {
    hide Drain, Redone, Picture, Measured, Paint, EncodeRow, FrameText, FrameMeasured, Ansi, AtRest, RowShows;
    var s, t := Play(m, sys, Draw(rows, None)).screen, Play(m, sys', Draw(rows, None)).screen;
    SameSize(m, sys, Draw(rows, None));
    SameSize(m, sys', Draw(rows, None));
    forall j | 0 <= j < s.rows
      ensures s.grid[j] == t.grid[j] && forall i :: 0 <= i < s.cols ==> |s.styles[j][i]| <= |t.styles[j][i]|
      ensures j == y ==> s.grid[j][k] != "" && |s.styles[j][k]| < |t.styles[j][k]|
    {
      PlayedRow(m, sys, rows, None, j);
      PlayedRow(m, sys', rows, None, j);
      FrameRow(m, rows, s.cols, s.rows, j);
      RowAtRest(m, sys, j);
      RowAtRest(m, sys', j);
      RedoneOver(m, RowPen(sys.screen, j), RowPen(sys'.screen, j), s.cols, Room(s, j), EncodeRow(rows, s.cols, s.rows, j));
    }
    assert s.grid == t.grid;
    LongerAnsi(s, t, y, k);
  }

  lemma RowAtRest(m: Metrics, sys: System, y: nat)
    requires Ready(m, sys) && y < sys.screen.rows
    ensures AtRest(RowPen(sys.screen, y), sys.screen.cols, Room(sys.screen, y))
  {
    hide Redone, Picture, RowShows, AtRest;
    assert RowSynced(m, sys.screen, sys.previous, y);
  }

  /** A frame with a cell that has no style of its own: two sessions that end in it and leave different snapshots. */
  lemma EarlierStyleShows(m: Metrics, rows: seq<Line>, width: nat, height: nat, y: nat, k: nat)
    requires Measures(m) && 2 <= width && y < height && k < width && FrameMeasured(m, rows, width, height)
    requires var a := RowPicture(m, rows, width, height, y); a.pen.cells[k] != "" && k !in a.inked
    ensures var start, bold, last := System(Fresh(width, height), map[]), Draw(BoldFrame(y, k + 1), None), Draw(rows, None);
            && EndsIn(m, start, [], last, width, height) && EndsIn(m, start, [bold], last, width, height)
            && LastSnapshot(m, start, [], last) != LastSnapshot(m, start, [bold], last)
  {
    hide Fresh, Ansi, Ready, Play, BoldFrame, PlayAll, Playable, Shaped, Measures, FrameMeasured, RowPicture, Sgr, Drain, FrameText;
    var start, bold := System(Fresh(width, height), map[]), Draw(BoldFrame(y, k + 1), None);
    FreshReady(m, width, height);
    ReadyIsShaped(m, start);
    InkedToRoom(m, rows, width, height, y, k);
    BoldDrawn(m, start, y, k);
    NoEvents(m, start);
    OneEvent(m, start, bold);
    SgrIsSomething();
    StyleShowsThrough(m, start, Play(m, start, bold), rows, y, k);
  }

  lemma SgrIsSomething()
    ensures Sgr("1") != ""
  {
  }

  /** Such a cell is one the renderer may write. */
  lemma InkedToRoom(m: Metrics, rows: seq<Line>, width: nat, height: nat, y: nat, k: nat)
    requires 2 <= width && y < height && k < width && FrameMeasured(m, rows, width, height)
    requires k !in RowPicture(m, rows, width, height, y).inked
    ensures k < RoomOf(width, height, y)
  {
    hide Paint, EncodeRow;
    FrameRow(m, rows, width, height, y);
  }

  lemma SessionsDiffer(m: Metrics, rows: seq<Line>, width: nat, height: nat, sys: System, events: seq<Event>, events': seq<Event>)
    requires var last := Draw(rows, None);
             && EndsIn(m, sys, events, last, width, height) && EndsIn(m, sys, events', last, width, height)
             && LastSnapshot(m, sys, events, last) != LastSnapshot(m, sys, events', last)
    ensures !HidesHistory(m, rows, width, height)
  {
    hide EndsIn, LastSnapshot, Allowed, Playable, PlayAll, Shaped;
  }

  lemma AllSessionsAlike(m: Metrics, rows: seq<Line>, width: nat, height: nat)
    requires 2 <= width && Forgets(m, rows, width, height)
    ensures HidesHistory(m, rows, width, height)
  {
    hide EndsIn, LastSnapshot, Forgets, Allowed, Playable, PlayAll, Shaped;
    forall sys, events, cursor, sys', events', cursor' |
      EndsIn(m, sys, events, Draw(rows, cursor), width, height) && EndsIn(m, sys', events', Draw(rows, cursor'), width, height)
      ensures LastSnapshot(m, sys, events, Draw(rows, cursor)) == LastSnapshot(m, sys', events', Draw(rows, cursor'))
    {
      SessionsAlike(m, sys, events, cursor, sys', events', cursor', rows, width, height);
    }
  }

  lemma UnstyledCell(m: Metrics, rows: seq<Line>, width: nat, height: nat) returns (y: nat, k: nat)
    requires 2 <= width && !Forgets(m, rows, width, height)
    ensures y < height && k < width && var a := RowPicture(m, rows, width, height, y); a.pen.cells[k] != "" && k !in a.inked
  {
    hide RowPicture;
    y :| y < height && !SelfStyled(RowPicture(m, rows, width, height, y));
    var a := RowPicture(m, rows, width, height, y);
    k :| k < width && a.pen.cells[k] != "" && k !in a.inked;
  }

  /** What was drawn before a frame does not matter exactly when every non-empty cell of the frame has a style of its own. */
  lemma HistoryDoesNotMatter(m: Metrics, rows: seq<Line>, width: nat, height: nat)
    requires Measures(m) && 2 <= width && 1 <= height && FrameMeasured(m, rows, width, height)
    ensures HidesHistory(m, rows, width, height) <==> Forgets(m, rows, width, height)
  {
    hide EndsIn, LastSnapshot, FrameMeasured, RowPicture, Measures, HidesHistory, Forgets, BoldFrame, Fresh;
    if Forgets(m, rows, width, height) {
      AllSessionsAlike(m, rows, width, height);
    } else {
      var y, k := UnstyledCell(m, rows, width, height);
      EarlierStyleShows(m, rows, width, height, y, k);
      SessionsDiffer(m, rows, width, height, System(Fresh(width, height), map[]), [], [Draw(BoldFrame(y, k + 1), None)]);
    }
  }

  // ---------------------------------------------------------------------------
  // The kind of row for which it does

  /** A row of a wide character followed by one without width. */
  function ThinLine(c: char, z: char): Line { [Span([Renderer.Cell([c], 2), Renderer.Cell([z], 0)], "", None)] }

  /** Characters as the host measures them: blanks narrow, `c` wide, `z` without width, nothing joining. */
  predicate Plain(m: Metrics, c: char, z: char) {
    && Measures(m) && Printable(c) && m.width([c]) == 2 && Printable(z) && m.width([z]) == 0 && !JoinsAfter(m, [c], z)
  }

  lemma ThinEncoded(c: char, z: char)
    requires Printable(c) && Printable(z)
    ensures Encode(ThinLine(c, z), 2) == Encoded([c, z], 2)
  {
    var cells := [Renderer.Cell([c], 2), Renderer.Cell([z], 0)];
    assert cells[1..] == [Renderer.Cell([z], 0)] && cells[1..][1..] == [];
    assert TakeCells(cells[1..], 0) == Taken([z] + "", 0) && [z] + "" == [z] && [c] + [z] == [c, z];
  }

  /** The row of the wide character on a blank row: the second cell is not empty, and has no style of its own. */
  lemma ThinPainted(m: Metrics, c: char, z: char)
    requires Plain(m, c, z)
    ensures Paint(m, BlankLine(3), [c, z]) == Some(Painted(Pen([[c], [z], " "], ["", "", ""], 2), "", {0}))
  {
    var a := BlankLine(3);
    var b := Painted(Pen([[c], "", " "], ["", "", ""], 2), "", {0});
    assert Placed(a.pen.cells, 0, [c], 2) == [[c], "", " "] && a.pen.inks[0 := ""] == ["", "", ""];
    assert a.inked + {0} == {0};
    assert PaintToken(m, a, Single(c)) == Some(b);
    assert Before(b.pen.cells, 2) == 0 && "" + [z] == [z];
    assert [[c], "", " "][1 := [z]] == [[c], [z], " "];
    PaintChar(m, a, c);
    PaintChar(m, b, z);
    PaintBoth(m, a, [c], [z]);
    assert [c] + [z] == [c, z];
    hide Paint, PaintToken;
  }

  lemma ThinMeasured(m: Metrics, c: char, z: char)
    requires Plain(m, c, z)
    ensures Measured(m, 3, 2, Encoded([c, z], 2))
    ensures var a := Picture(m, 3, 2, [c, z]); a.pen.cells[1] != "" && 1 !in a.inked
  {
    hide Paint;
    ThinPainted(m, c, z);
  }

  lemma OneRowOf(line: Line)
    ensures EncodeRow([line], 3, 1, 0) == Encode(line, 2) && RoomOf(3, 1, 0) == 2
  {
    hide Encode;
  }

  /** The frame of that one row lets the frame before it show through, for every such pair of characters. */
  lemma EarlierStyleShowsThrough(m: Metrics, c: char, z: char)
    requires Plain(m, c, z)
    ensures var start, bold, thin := System(Fresh(3, 1), map[]), Draw(BoldFrame(0, 2), None), Draw([ThinLine(c, z)], None);
            && EndsIn(m, start, [], thin, 3, 1) && EndsIn(m, start, [bold], thin, 3, 1)
            && LastSnapshot(m, start, [], thin) != LastSnapshot(m, start, [bold], thin)
  {
    hide Measured, ThinLine, Encode, Picture, EndsIn, LastSnapshot, BoldFrame;
    ThinEncoded(c, z);
    ThinMeasured(m, c, z);
    OneRowOf(ThinLine(c, z));
    EarlierStyleShows(m, [ThinLine(c, z)], 3, 1, 0, 1);
  }
}
