/** Whole sessions: a renderer and a receiver from the moment the alternate screen is entered, through any frames, resizes,
    repaints, titles and cursor shapes. */
module Session {
  import opened Numbers
  import opened Strings
  import opened Terminal
  import opened Chunking
  import opened Renderer
  import opened Redraw

  // ---------------------------------------------------------------------------
  // One frame

  /** A DEC private mode, set or reset. */
  function ModeText(number: string, final: char): string { [ESC, '[', '?'] + number + [final] }

  lemma ModeAction(body: string, final: char)
    requires "?" <= body && final in {'h', 'l'}
    ensures Interpret(body, final) ==
            if body == "?2026" && final == 'l' then FrameEnd
            else if body == "?1049" && final == 'h' then AlternateScreen else Ignored
  {
    hide Split, Number;
  }

  lemma ModeFed(m: Metrics, s: Screen, number: string, final: char, rest: string)
    requires Shaped(s) && AllDigits(number) && final in {'h', 'l'}
    ensures Drain(m, s, ModeText(number, final) + rest) == Drain(m, Apply(s, Interpret("?" + number, final)), rest)
  {
    hide Drain, RowsShaped, Interpret, Apply;
    var text := ModeText(number, final);
    forall k | 2 <= k < |text| - 1 ensures Parameter(text[k]) {
      if k > 2 { assert Digit(number[k - 3]); }
    }
    assert ControlSequence(text, |text| - 1) && text[2..|text| - 1] == "?" + number;
    ControlFed(m, s, text, |text| - 1, rest);
  }

  /** Setting or resetting a mode the receiver does not draw with. */
  lemma QuietModeFed(m: Metrics, s: Screen, number: string, final: char, rest: string)
    requires Shaped(s) && AllDigits(number) && final in {'h', 'l'}
    requires number != "1049" && (final == 'l' ==> number != "2026")
    ensures Drain(m, s, ModeText(number, final) + rest) == Drain(m, s, rest)
  {
    hide Drain, RowsShaped, Interpret, AllDigits, ModeText;
    ModeFed(m, s, number, final, rest);
    ModeAction("?" + number, final);
    assert ("?" + number)[1..] == number && "?1049"[1..] == "1049" && "?2026"[1..] == "2026";
  }

  lemma SyncStartFed(m: Metrics, s: Screen, rest: string)
    requires Shaped(s)
    ensures Drain(m, s, SYNC_START + rest) == Drain(m, s, rest)
  {
    hide Drain, RowsShaped, Interpret;
    assert SYNC_START == ModeText("2026", 'h');
    QuietModeFed(m, s, "2026", 'h', rest);
  }

  lemma SyncEndFed(m: Metrics, s: Screen, rest: string)
    requires Shaped(s)
    ensures Drain(m, s, SYNC_END + rest) == Drain(m, s.(frames := s.frames + 1), rest)
  {
    hide Drain, RowsShaped, Interpret;
    assert SYNC_END == ModeText("2026", 'l') && "?" + "2026" == "?2026";
    ModeFed(m, s, "2026", 'l', rest);
    ModeAction("?2026", 'l');
  }

  lemma CursorShownFed(m: Metrics, s: Screen, rest: string)
    requires Shaped(s)
    ensures Drain(m, s, SHOW_CURSOR + rest) == Drain(m, s, rest)
    ensures Drain(m, s, HIDE_CURSOR + rest) == Drain(m, s, rest)
  {
    hide Drain, RowsShaped, Interpret;
    assert SHOW_CURSOR == ModeText("25", 'h') && HIDE_CURSOR == ModeText("25", 'l') && |"?" + "25"| == 3;
    QuietModeFed(m, s, "25", 'h', rest);
    QuietModeFed(m, s, "25", 'l', rest);
  }

  /** Where a frame leaves the cursor. */
  function Parked(s: Screen, cursor: Option<Cursor>): (r: Screen)
    requires Shaped(s)
    ensures Shaped(r)
  {
    match cursor
    case Some(c) => s.(y := Min(s.rows - 1, c.row), x := Min(s.cols - 1, c.col))
    case None => s
  }

  lemma CursorTextFed(m: Metrics, s: Screen, cursor: Option<Cursor>, rest: string)
    requires Shaped(s)
    ensures Drain(m, s, CursorText(cursor) + rest) == Drain(m, Parked(s, cursor), rest)
  {
    hide Drain, RowsShaped, MoveSequence;
    CursorShownFed(m, Parked(s, cursor), rest);
    match cursor
    case None =>
    case Some(c) =>
      assert MoveSequence(c.row, c.col) + SHOW_CURSOR + rest == MoveSequence(c.row, c.col) + (SHOW_CURSOR + rest);
      MoveFed(m, s, c.row, c.col, SHOW_CURSOR + rest);
  }

  /** Synced says nothing about the cursor or the frame count. */
  lemma SyncedAnywhere(m: Metrics, s: Screen, r: Screen, known: map<nat, string>)
    requires Synced(m, s, known) && Shaped(r) && r.(x := s.x, y := s.y, frames := s.frames) == s
    ensures Synced(m, r, known)
  {
    forall y | 0 <= y < r.rows ensures RowSynced(m, r, known, y) {
      assert RowSynced(m, s, known, y);
    }
  }

  /** One frame: the screen shows it, the frame is counted, and nothing else is noticed. */
  lemma FrameFed(m: Metrics, s: Screen, previous: map<nat, string>, rows: seq<Line>, cursor: Option<Cursor>)
    returns (r: Screen)
    requires Shaped(s) && Synced(m, s, previous) && FrameMeasured(m, rows, s.cols, s.rows)
    ensures Drain(m, s, FrameText(previous, rows, s.cols, s.rows, cursor)) == Receiver(r, "")
    ensures Shaped(r) && Synced(m, r, previous + Drawn(rows, s.cols, s.rows, s.rows))
    ensures RowsDrawn(m, s, r.(frames := s.frames), rows, 0)
    ensures r.cols == s.cols && r.rows == s.rows && r.unsupported == s.unsupported && r.frames == s.frames + 1
    ensures cursor.Some? ==> r.y == Min(s.rows - 1, cursor.value.row) && r.x == Min(s.cols - 1, cursor.value.col)
  {
    hide Drain, Synced, FrameMeasured, Drawn, ChangedRows, CursorText, Shaped, RowsDrawn;
    CursorRow(s);
    var changed, tail := ChangedRows(previous, rows, s.cols, s.rows, 0), CursorText(cursor) + SYNC_END;
    SyncStartFed(m, s, changed + tail);
    DrawnNext(previous, rows, s.cols, s.rows, 0);
    var shown := ChangedRowsFed(m, s, previous, rows, 0, tail);
    DrawnKeeps(m, s, shown, rows);
    r := FrameEndFed(m, shown, cursor);
    SyncedAnywhere(m, shown, r, previous + Drawn(rows, s.cols, s.rows, s.rows));
    DrawnAnywhere(m, s, shown, r, rows);
  }

  lemma DrawnKeeps(m: Metrics, s: Screen, r: Screen, rows: seq<Line>)
    requires Shaped(s) && RowsDrawn(m, s, r, rows, 0)
    ensures Shaped(r) && r.cols == s.cols && r.rows == s.rows && r.unsupported == s.unsupported && r.frames == s.frames
  {
    hide RowDrawn;
  }

  lemma DrawnAnywhere(m: Metrics, s: Screen, r: Screen, t: Screen, rows: seq<Line>)
    requires Shaped(s) && RowsDrawn(m, s, r, rows, 0) && Shaped(t) && t.(x := r.x, y := r.y, frames := r.frames) == r
    ensures Shaped(t.(frames := s.frames)) && RowsDrawn(m, s, t.(frames := s.frames), rows, 0)
  {
    hide Redone, EncodeRow;
    var u := t.(frames := s.frames);
    forall j | 0 <= j < s.rows ensures RowDrawn(m, s, u, rows, 0, j) {
      assert RowDrawn(m, s, r, rows, 0, j);
    }
  }

  lemma CountKeepsShape(s: Screen, r: Screen)
    requires Shaped(s) && r == s.(frames := r.frames)
    ensures Shaped(r)
  {
  }

  lemma FrameEndFed(m: Metrics, s: Screen, cursor: Option<Cursor>) returns (r: Screen)
    requires Shaped(s)
    ensures Shaped(r) && r.(x := s.x, y := s.y, frames := s.frames) == s && r.frames == s.frames + 1
    ensures cursor.Some? ==> r.y == Min(s.rows - 1, cursor.value.row) && r.x == Min(s.cols - 1, cursor.value.col)
    ensures Drain(m, s, CursorText(cursor) + SYNC_END) == Receiver(r, "")
  {
    hide Drain, CursorText, Shaped;
    CursorTextFed(m, s, cursor, SYNC_END);
    var parked := Parked(s, cursor);
    assert SYNC_END + "" == SYNC_END;
    SyncEndFed(m, parked, "");
    r := parked.(frames := parked.frames + 1);
    CountKeepsShape(parked, r);
    DrainOne(m, r, "");
  }

  /** The same screen but for where the cursor is. */
  predicate SameButCursor(s: Screen, t: Screen) {
    s == t.(x := s.x, y := s.y)
  }

  lemma RowsDrawnAlike(m: Metrics, s: Screen, t: Screen, a: Screen, b: Screen, rows: seq<Line>)
    requires Shaped(s) && Shaped(t) && SameButCursor(s, t)
    requires RowsDrawn(m, s, a, rows, 0) && RowsDrawn(m, t, b, rows, 0)
    ensures SameButCursor(a, b)
  {
    hide Redone, EncodeRow;
    forall j | 0 <= j < s.rows ensures a.grid[j] == b.grid[j] && a.styles[j] == b.styles[j] {
      assert RowDrawn(m, s, a, rows, 0, j) && RowDrawn(m, t, b, rows, 0, j) && RowPen(s, j) == RowPen(t, j);
    }
    assert a.grid == b.grid && a.styles == b.styles;
  }

  /** Writing only the rows that changed gives the same screen as writing every row, in every cell and every style; only a
      frame without a cursor may leave the hidden cursor elsewhere. */
  lemma DifferentialIsFull(m: Metrics, s: Screen, t: Screen, previous: map<nat, string>, rows: seq<Line>, cursor: Option<Cursor>)
    requires Shaped(s) && Shaped(t) && SameButCursor(s, t) && Synced(m, s, previous) && FrameMeasured(m, rows, s.cols, s.rows)
    ensures var changed := Drain(m, s, FrameText(previous, rows, s.cols, s.rows, cursor)).screen;
            var full := Drain(m, t, FrameText(map[], rows, s.cols, s.rows, cursor)).screen;
            && SameButCursor(changed, full) && Ansi(changed) == Ansi(full)
            && (cursor.Some? ==> changed == full)
  {
    hide Synced, FrameMeasured, Drawn, Drain, FrameText, RowsDrawn, Shaped, Parked;
    var a := FrameFed(m, s, previous, rows, cursor);
    NothingKnown(m, s, previous);
    SyncedAnywhere(m, s, t, map[]);
    var b := FrameFed(m, t, map[], rows, cursor);
    RowsDrawnAlike(m, s, t, a.(frames := s.frames), b.(frames := t.frames), rows);
    AnsiWithoutCursor(a, b);
  }

  lemma AnsiWithoutCursor(s: Screen, t: Screen)
    requires Shaped(s) && Shaped(t) && SameButCursor(s, t)
    ensures Ansi(s) == Ansi(t)
  {
    assert AnsiRows(s) == AnsiRows(t);
  }

  lemma NothingKnown(m: Metrics, s: Screen, known: map<nat, string>)
    requires Shaped(s) && Synced(m, s, known)
    ensures Synced(m, s, map[])
  {
    forall y | 0 <= y < s.rows ensures RowSynced(m, s, map[], y) {
      assert RowSynced(m, s, known, y);
    }
  }

  // ---------------------------------------------------------------------------
  // Sessions

  /** `Invalidate` may follow another program that used the terminal; `left` is then the screen it left. */
  datatype Event =
    | Draw(rows: seq<Line>, cursor: Option<Cursor>)
    | Resize(width: nat, height: nat)
    | Invalidate(left: Option<Screen>)
    | CursorShape(shape: char)
    | Title(text: string)

  /** The receiver's screen and what the renderer remembers of it. Between events nothing is pending. */
  datatype System = System(screen: Screen, previous: map<nat, string>)

  function Output(sys: System, event: Event): string
    requires Shaped(sys.screen)
  {
    match event
    case Draw(rows, cursor) => FrameText(sys.previous, rows, sys.screen.cols, sys.screen.rows, cursor)
    case Resize(_, _) => ERASE_SCREEN
    case Invalidate(_) => ""
    case CursorShape(shape) => ShapeText(shape)
    case Title(text) => TitleText(text)
  }

  /** A screen as another program may leave it: other cells, other styles on them, another cursor, and the one cell the renderer
      never writes blank. */
  predicate Used(s: Screen, left: Screen)
    requires Shaped(s)
  {
    Shaped(left) && left.(grid := s.grid, styles := s.styles, x := s.x, y := s.y) == s && BlankCorner(left)
  }

  predicate BlankCorner(s: Screen)
    requires Shaped(s)
  {
    s.grid[s.rows - 1][s.cols - 1] == " " && s.styles[s.rows - 1][s.cols - 1] == ""
  }

  /** What a caller owes: sizes the receiver can have, rows it measures as the layout did, titles without control characters. */
  predicate Allowed(m: Metrics, sys: System, event: Event)
    requires Shaped(sys.screen)
  {
    match event
    case Draw(rows, _) => FrameMeasured(m, rows, sys.screen.cols, sys.screen.rows)
    case Resize(width, height) => 2 <= width && 1 <= height
    case Invalidate(left) => left.Some? ==> Used(sys.screen, left.value)
    case CursorShape(shape) => shape in {'0', '2', '6'}
    case Title(text) => forall k :: 0 <= k < |text| ==> Printable(text[k])
  }

  /** The screen the bytes of an event meet. */
  function Met(m: Metrics, sys: System, event: Event): (s: Screen)
    requires Shaped(sys.screen) && Allowed(m, sys, event)
    ensures Shaped(s)
  {
    match event
    case Resize(width, height) => Resized(sys.screen, width, height)
    case Invalidate(Some(left)) => left
    case _ => sys.screen
  }

  function Play(m: Metrics, sys: System, event: Event): (r: System)
    requires Shaped(sys.screen) && Allowed(m, sys, event)
    ensures Shaped(r.screen)
  {
    var s := Met(m, sys, event);
    var known :=
      match event
      case Draw(rows, _) => sys.previous + Drawn(rows, s.cols, s.rows, s.rows)
      case Resize(_, _) => map[]
      case Invalidate(_) => map[]
      case _ => sys.previous;
    System(Drain(m, s, Output(sys, event)).screen, known)
  }

  function Resized(s: Screen, width: nat, height: nat): (r: Screen)
    requires 2 <= width && 1 <= height
    ensures Shaped(r)
  {
    Fresh(width, height).(style := s.style, frames := s.frames, unsupported := s.unsupported)
  }

  predicate Playable(m: Metrics, sys: System, events: seq<Event>)
    requires Shaped(sys.screen)
    decreases |events|
  {
    events != [] ==> Allowed(m, sys, events[0]) && Playable(m, Play(m, sys, events[0]), events[1..])
  }

  function PlayAll(m: Metrics, sys: System, events: seq<Event>): (r: System)
    requires Shaped(sys.screen) && Playable(m, sys, events)
    ensures Shaped(r.screen)
    decreases |events|
  {
    if events == [] then sys else PlayAll(m, Play(m, sys, events[0]), events[1..])
  }

  function Draws(events: seq<Event>): nat {
    if events == [] then 0 else (if events[0].Draw? then 1 else 0) + Draws(events[1..])
  }

  predicate Ready(m: Metrics, sys: System) {
    Shaped(sys.screen) && Synced(m, sys.screen, sys.previous)
  }

  lemma ClearedSynced(m: Metrics, s: Screen)
    requires Shaped(s) && s.style == ""
    ensures Synced(m, Cleared(s), map[])
  {
    forall y | 0 <= y < s.rows ensures RowSynced(m, Cleared(s), map[], y) {}
  }

  /** A renderer that has forgotten everything can draw on any screen with no style in force and that one cell blank, and on no
      other. */
  lemma ForgottenReady(m: Metrics, s: Screen)
    requires Shaped(s)
    ensures Ready(m, System(s, map[])) <==> s.style == "" && BlankCorner(s)
  {
    hide Redone, Picture, RowShows;
    if s.style == "" && BlankCorner(s) {
      forall y | 0 <= y < s.rows ensures RowSynced(m, s, map[], y) {}
    }
    if Ready(m, System(s, map[])) { assert RowSynced(m, s, map[], s.rows - 1); }
  }

  lemma EraseScreenFed(m: Metrics, s: Screen, rest: string)
    requires Shaped(s)
    ensures Drain(m, s, ERASE_SCREEN + rest) == Drain(m, Cleared(s).(x := s.x, y := s.y), rest)
  {
    hide Drain, RowsShaped, Interpret, BlankRows;
    EraseScreenAction();
    ControlFed(m, s, ERASE_SCREEN, 3, rest);
  }

  lemma EraseScreenAction()
    ensures ControlSequence(ERASE_SCREEN, 3) && Interpret(ERASE_SCREEN[2..3], ERASE_SCREEN[3]) == EraseScreen
  {
    assert ERASE_SCREEN[2..3] == Decimal(2);
    SplitWithoutSeparator(Decimal(2), ';');
    NumberOfDecimal(2);
  }

  lemma QuietFinal(body: string, final: char)
    requires final in {'t', 'q'}
    ensures Interpret(body, final).Ignored?
  {
    hide Split, Number;
  }

  /** A title or cursor shape sequence. */
  lemma QuietFed(m: Metrics, s: Screen, text: string, i: nat, rest: string)
    requires Shaped(s) && ControlSequence(text, i) && text[|text| - 1] in {'t', 'q'}
    ensures Drain(m, s, text + rest) == Drain(m, s, rest)
  {
    hide Drain, RowsShaped, Interpret;
    QuietFinal(text[2..|text| - 1], text[|text| - 1]);
    ControlFed(m, s, text, i, rest);
  }

  lemma CursorShapeFed(m: Metrics, s: Screen, shape: char)
    requires Shaped(s) && shape in {'0', '2', '6'}
    ensures Drain(m, s, ShapeText(shape)) == Receiver(s, "")
  {
    hide Drain, RowsShaped, Interpret;
    var text := ShapeText(shape);
    assert text + "" == text;
    QuietFed(m, s, text, 3, "");
    DrainOne(m, s, "");
  }

  /** A title is one control string, skipped whole. */
  lemma TitleIsString(title: string)
    requires forall k :: 0 <= k < |title| ==> Printable(title[k])
    ensures var text := TitleText(title); text != "" && Next(text) == Lexeme(Skipped, |text|)
  {
    var text := TitleText(title);
    forall e | 2 <= e < |text| ensures !StringEndsAt(text, 2, e) {
      assert text[e - 1] != BEL && (e > 3 ==> text[e - 2] != ESC) by {
        assert forall k :: 4 <= k < |text| - 1 ==> text[k] == title[k - 4];
      }
    }
    hide Next;
    StringTokenEndsAtFirstTerminator(text, |text|);
  }

  lemma TitleFed(m: Metrics, s: Screen, title: string)
    requires Shaped(s) && forall k :: 0 <= k < |title| ==> Printable(title[k])
    ensures Drain(m, s, TitleText(title)) == Receiver(s, "")
  {
    hide Drain, Shaped, Next;
    TitleIsString(title);
    StringFed(m, s, TitleText(title));
  }

  lemma StringFed(m: Metrics, s: Screen, text: string)
    requires Shaped(s) && text != "" && Next(text) == Lexeme(Skipped, |text|)
    ensures Drain(m, s, text) == Receiver(s, "")
  {
    hide Drain, Shaped, Next, Step;
    assert text[|text|..] == "";
    SkippedDoesNothing(m, s);
    DrainOne(m, s, text);
    DrainOne(m, s, "");
  }

  lemma SkippedDoesNothing(m: Metrics, s: Screen)
    requires Shaped(s)
    ensures Step(m, s, Skipped) == s
  {
    hide Interpret, Apply, Char;
  }

  lemma ResizeFed(m: Metrics, s: Screen, width: nat, height: nat)
    requires 2 <= width && 1 <= height && s.style == ""
    ensures var r := Resized(s, width, height);
            Drain(m, r, ERASE_SCREEN) == Receiver(Cleared(r), "") && Synced(m, Cleared(r), map[]) && Shaped(Cleared(r))
    ensures Cleared(Resized(s, width, height)).unsupported == s.unsupported && Cleared(Resized(s, width, height)).frames == s.frames
  {
    var r := Resized(s, width, height);
    assert Cleared(r).(x := r.x, y := r.y) == Cleared(r) && r.style == "";
    hide Drain, RowSynced, Resized, Cleared;
    assert ERASE_SCREEN + "" == ERASE_SCREEN;
    EraseScreenFed(m, r, "");
    ClearedSynced(m, r);
    DrainOne(m, Cleared(r), "");
  }

  /** Every event leaves the receiver showing what the renderer remembers, with nothing pending. */
  lemma EventKeepsReady(m: Metrics, sys: System, event: Event)
    requires Ready(m, sys) && Allowed(m, sys, event)
    ensures Ready(m, Play(m, sys, event))
    ensures Drain(m, Met(m, sys, event), Output(sys, event)) == Receiver(Play(m, sys, event).screen, "")
    ensures var s := Play(m, sys, event).screen;
            s.unsupported == sys.screen.unsupported && s.frames == sys.screen.frames + (if event.Draw? then 1 else 0)
  {
    hide Drain, RowSynced, FrameMeasured, FrameText, Drawn, Cleared;
    match event
    case Draw(rows, cursor) =>
      var r := FrameFed(m, sys.screen, sys.previous, rows, cursor);
    case Resize(width, height) =>
      ResizeFed(m, sys.screen, width, height);
    case Invalidate(left) =>
      DrainOne(m, Met(m, sys, event), "");
      NothingKnown(m, sys.screen, sys.previous);
      if left.Some? { ForgottenReady(m, left.value); }
    case CursorShape(shape) => CursorShapeFed(m, sys.screen, shape);
    case Title(text) => TitleFed(m, sys.screen, text);
  }

  /** Any session: the receiver and the renderer agree at its end, every frame was counted once, and nothing the renderer
      wrote was unknown to the receiver. */
  lemma {:induction false} SessionKeepsReady(m: Metrics, sys: System, events: seq<Event>)
    requires Ready(m, sys) && Playable(m, sys, events)
    ensures Ready(m, PlayAll(m, sys, events))
    ensures var s := PlayAll(m, sys, events).screen;
            s.unsupported == sys.screen.unsupported && s.frames == sys.screen.frames + Draws(events)
    decreases |events|
  {
    hide Ready, Allowed, Play;
    if events != [] {
      ReadyIsShaped(m, sys);
      EventKeepsReady(m, sys, events[0]);
      SessionKeepsReady(m, Play(m, sys, events[0]), events[1..]);
    }
  }

  lemma ReadyIsShaped(m: Metrics, sys: System)
    requires Ready(m, sys)
    ensures Shaped(sys.screen)
  {
  }

  /** A frame redoes every row, whether it is written or not. */
  lemma PlayedRow(m: Metrics, sys: System, rows: seq<Line>, cursor: Option<Cursor>, y: nat)
    requires Ready(m, sys) && Allowed(m, sys, Draw(rows, cursor)) && y < sys.screen.rows
    ensures var s, r := sys.screen, Play(m, sys, Draw(rows, cursor)).screen;
            && r.cols == s.cols && r.rows == s.rows
            && RowPen(r, y) == Redone(m, RowPen(s, y), Room(s, y), EncodeRow(rows, s.cols, s.rows, y).out)
  {
    hide Drain, Synced, Redone, EncodeRow, FrameText, FrameMeasured, Drawn;
    var r := FrameFed(m, sys.screen, sys.previous, rows, cursor);
    assert RowDrawn(m, sys.screen, r.(frames := sys.screen.frames), rows, 0, y);
  }

  /** Whatever happened before, after a frame the receiver shows that frame: every row is the picture of its encoding. */
  lemma LastFrameShown(m: Metrics, sys: System, events: seq<Event>, rows: seq<Line>, cursor: Option<Cursor>)
    requires Ready(m, sys) && Playable(m, sys, events) && Allowed(m, PlayAll(m, sys, events), Draw(rows, cursor))
    ensures var s := Play(m, PlayAll(m, sys, events), Draw(rows, cursor)).screen;
            Shaped(s) && forall y :: 0 <= y < s.rows ==>
              RowShows(s.grid[y], s.styles[y], Picture(m, s.cols, Room(s, y), EncodeRow(rows, s.cols, s.rows, y).out))
  {
    hide Drain, PlayAll, Playable, RowShows, Picture, FrameMeasured;
    SessionKeepsReady(m, sys, events);
    var before := PlayAll(m, sys, events);
    EventKeepsReady(m, before, Draw(rows, cursor));
    var after := Play(m, before, Draw(rows, cursor));
    var s := after.screen;
    forall y | 0 <= y < s.rows
      ensures RowShows(s.grid[y], s.styles[y], Picture(m, s.cols, Room(s, y), EncodeRow(rows, s.cols, s.rows, y).out))
    {
      assert RowSynced(m, s, after.previous, y);
    }
  }

  // ---------------------------------------------------------------------------
  // The same by a renderer that remembers nothing

  /** One event of a renderer that writes every row of every frame. */
  function PlayFully(m: Metrics, s: Screen, event: Event): (r: Screen)
    requires Shaped(s) && Allowed(m, System(s, map[]), event)
    ensures Shaped(r)
  {
    Play(m, System(s, map[]), event).screen
  }

  predicate PlayableFully(m: Metrics, s: Screen, events: seq<Event>)
    requires Shaped(s)
    decreases |events|
  {
    events != [] ==> Allowed(m, System(s, map[]), events[0]) && PlayableFully(m, PlayFully(m, s, events[0]), events[1..])
  }

  function PlayAllFully(m: Metrics, s: Screen, events: seq<Event>): (r: Screen)
    requires Shaped(s) && PlayableFully(m, s, events)
    ensures Shaped(r)
    decreases |events|
  {
    if events == [] then s else PlayAllFully(m, PlayFully(m, s, events[0]), events[1..])
  }

  /** The bytes of an event that draws nothing. */
  lemma QuietEvent(m: Metrics, sys: System, event: Event)
    requires Shaped(sys.screen) && Allowed(m, sys, event) && !event.Draw? && !event.Resize?
    ensures Play(m, sys, event).screen == Met(m, sys, event)
  {
    hide Drain, Shaped;
    match event
    case Invalidate(_) => DrainOne(m, Met(m, sys, event), "");
    case CursorShape(shape) => CursorShapeFed(m, sys.screen, shape);
    case Title(text) => TitleFed(m, sys.screen, text);
  }

  lemma ResizedAlike(s: Screen, t: Screen, width: nat, height: nat)
    requires SameButCursor(s, t) && 2 <= width && 1 <= height
    ensures Resized(s, width, height) == Resized(t, width, height)
  {
  }

  lemma EventIsFull(m: Metrics, sys: System, t: Screen, event: Event)
    requires Ready(m, sys) && Shaped(t) && SameButCursor(sys.screen, t) && Allowed(m, sys, event)
    ensures Allowed(m, System(t, map[]), event) && SameButCursor(Play(m, sys, event).screen, PlayFully(m, t, event))
  {
    hide Drain, Shaped, Synced, FrameMeasured, FrameText, Drawn, Resized;
    if event.Draw? {
      DifferentialIsFull(m, sys.screen, t, sys.previous, event.rows, event.cursor);
    } else if event.Resize? {
      ResizedAlike(sys.screen, t, event.width, event.height);
    } else {
      QuietEvent(m, sys, event);
      QuietEvent(m, System(t, map[]), event);
    }
  }

  /** Over any session, the renderer that remembers rows leaves the screen of the renderer that writes all of them. */
  lemma {:induction false} DifferentialSessionIsFull(m: Metrics, sys: System, t: Screen, events: seq<Event>)
    requires Ready(m, sys) && Shaped(t) && SameButCursor(sys.screen, t) && Playable(m, sys, events)
    ensures PlayableFully(m, t, events)
    ensures var a, b := PlayAll(m, sys, events).screen, PlayAllFully(m, t, events);
            SameButCursor(a, b) && Ansi(a) == Ansi(b)
    decreases |events|
  {
    hide Play, Allowed, PlayFully, SameButCursor, Ansi, Synced, Shaped;
    if events == [] {
      AnsiWithoutCursor(sys.screen, t);
    } else {
      EventIsFull(m, sys, t, events[0]);
      EventKeepsReady(m, sys, events[0]);
      DifferentialSessionIsFull(m, Play(m, sys, events[0]), PlayFully(m, t, events[0]), events[1..]);
    }
  }

  // ---------------------------------------------------------------------------
  // The same as a byte stream

  /** An event during which only the renderer writes to the receiver, and its size stays. */
  predicate Undisturbed(event: Event) {
    !event.Resize? && (event.Invalidate? ==> event.left.None?)
  }

  /** Everything written by a session in which nothing else happens to the receiver. */
  function Stream(m: Metrics, sys: System, events: seq<Event>): string
    requires Shaped(sys.screen) && Playable(m, sys, events)
    decreases |events|
  {
    if events == [] then "" else Output(sys, events[0]) + Stream(m, Play(m, sys, events[0]), events[1..])
  }

  lemma UndisturbedMeets(m: Metrics, sys: System, event: Event)
    requires Shaped(sys.screen) && Allowed(m, sys, event) && Undisturbed(event)
    ensures Met(m, sys, event) == sys.screen
  {
    hide Shaped, FrameMeasured;
  }

  lemma {:induction false} StreamPlays(m: Metrics, sys: System, events: seq<Event>)
    requires Ready(m, sys) && Playable(m, sys, events) && forall e :: e in events ==> Undisturbed(e)
    ensures Drain(m, sys.screen, Stream(m, sys, events)) == Receiver(PlayAll(m, sys, events).screen, "")
    decreases |events|
  {
    hide Ready, Allowed, Play, Drain, Output, Met, Undisturbed, Shaped;
    ReadyIsShaped(m, sys);
    if events == [] {
      DrainOne(m, sys.screen, "");
    } else {
      var next, rest := Play(m, sys, events[0]), Stream(m, Play(m, sys, events[0]), events[1..]);
      EventKeepsReady(m, sys, events[0]);
      UndisturbedMeets(m, sys, events[0]);
      DrainInTwo(m, sys.screen, Output(sys, events[0]), rest);
      assert "" + rest == rest;
      StreamPlays(m, next, events[1..]);
    }
  }

  /** However the stream is cut into reads, the receiver ends where the session ends. */
  lemma AnyReadsPlaySession(m: Metrics, sys: System, events: seq<Event>, pieces: seq<string>)
    requires Ready(m, sys) && Playable(m, sys, events) && forall e :: e in events ==> Undisturbed(e)
    requires Concat(pieces) == Stream(m, sys, events) && FeedAll(m, Receiver(sys.screen, ""), pieces).Some?
    ensures FeedAll(m, Receiver(sys.screen, ""), pieces) == Some(Receiver(PlayAll(m, sys, events).screen, ""))
  {
    hide Drain, FeedAll, Stream, PlayAll, Playable;
    StreamPlays(m, sys, events);
    FeedAllIsDrain(m, Receiver(sys.screen, ""), pieces);
    assert "" + Concat(pieces) == Concat(pieces);
  }

  lemma AlternateScreenFed(m: Metrics, s: Screen, rest: string)
    requires Shaped(s)
    ensures Drain(m, s, ALTERNATE_SCREEN + rest) == Drain(m, Cleared(s), rest)
  {
    hide Drain, RowsShaped, Interpret;
    assert ALTERNATE_SCREEN == ModeText("1049", 'h') && "?" + "1049" == "?1049";
    ModeFed(m, s, "1049", 'h', rest);
    ModeAction("?1049", 'h');
  }

  lemma PushTitleFed(m: Metrics, s: Screen, rest: string)
    requires Shaped(s)
    ensures Drain(m, s, PUSH_TITLE + rest) == Drain(m, s, rest)
  {
    hide Drain, RowsShaped, Interpret;
    QuietFed(m, s, PUSH_TITLE, 6, rest);
  }

  lemma MouseText(rest: string)
    ensures MOUSE_ON + rest == ModeText("1003", 'h') + (ModeText("1006", 'h') + rest)
  {
    assert MOUSE_ON == ModeText("1003", 'h') + ModeText("1006", 'h');
  }

  lemma MouseFed(m: Metrics, s: Screen, rest: string)
    requires Shaped(s)
    ensures Drain(m, s, MOUSE_ON + rest) == Drain(m, s, rest)
  {
    hide Drain, RowsShaped, Interpret, ModeText;
    MouseText(rest);
    QuietModeFed(m, s, "1003", 'h', ModeText("1006", 'h') + rest);
    QuietModeFed(m, s, "1006", 'h', rest);
  }

  lemma EraseBlankFed(m: Metrics, s: Screen, keepFrame: bool)
    requires Shaped(s)
    ensures Drain(m, Cleared(s), if keepFrame then "" else ERASE_SCREEN) == Receiver(Cleared(s), "")
  {
    hide Drain, RowsShaped;
    var c := Cleared(s);
    assert ERASE_SCREEN + "" == ERASE_SCREEN && Cleared(c).(x := c.x, y := c.y) == c;
    EraseScreenFed(m, c, "");
    DrainOne(m, c, "");
  }

  /** The modes asked for after the cursor is hidden. */
  function ModesText(focus: bool, mouse: bool, rest: string): string {
    PASTE_ON + ((if focus then FOCUS_ON else "") + ((if mouse then MOUSE_ON else "") + rest))
  }

  lemma PasteFed(m: Metrics, s: Screen, rest: string)
    requires Shaped(s)
    ensures Drain(m, s, PASTE_ON + rest) == Drain(m, s, rest)
  {
    hide Drain, RowsShaped, Interpret;
    assert PASTE_ON == ModeText("2004", 'h');
    QuietModeFed(m, s, "2004", 'h', rest);
  }

  lemma FocusFed(m: Metrics, s: Screen, rest: string)
    requires Shaped(s)
    ensures Drain(m, s, FOCUS_ON + rest) == Drain(m, s, rest)
  {
    hide Drain, RowsShaped, Interpret;
    assert FOCUS_ON == ModeText("1004", 'h');
    QuietModeFed(m, s, "1004", 'h', rest);
  }

  lemma ModesFed(m: Metrics, s: Screen, focus: bool, mouse: bool, rest: string)
    requires Shaped(s)
    ensures Drain(m, s, ModesText(focus, mouse, rest)) == Drain(m, s, rest)
  {
    hide Drain, Shaped;
    var mouseText := (if mouse then MOUSE_ON else "") + rest;
    var focusText := (if focus then FOCUS_ON else "") + mouseText;
    assert "" + mouseText == mouseText && "" + rest == rest;
    PasteFed(m, s, focusText);
    FocusFed(m, s, mouseText);
    MouseFed(m, s, rest);
  }

  lemma EnterParts(titles: bool, focus: bool, mouse: bool, keepFrame: bool)
    ensures EnterText(titles, focus, mouse, keepFrame)
         == ALTERNATE_SCREEN + ((if titles then PUSH_TITLE else "")
            + (HIDE_CURSOR + ModesText(focus, mouse, if keepFrame then "" else ERASE_SCREEN)))
  {
  }

  lemma TitlePushed(m: Metrics, s: Screen, titles: bool, rest: string)
    requires Shaped(s)
    ensures Drain(m, s, (if titles then PUSH_TITLE else "") + rest) == Drain(m, s, rest)
  {
    hide Drain, Shaped;
    assert "" + rest == rest;
    PushTitleFed(m, s, rest);
  }

  /** Entering the alternate screen starts a session: the screen is blank and the renderer knows nothing. */
  lemma EnterStartsSession(m: Metrics, s: Screen, titles: bool, focus: bool, mouse: bool, keepFrame: bool)
    requires Shaped(s) && s.style == ""
    ensures Drain(m, s, EnterText(titles, focus, mouse, keepFrame)) == Receiver(Cleared(s), "")
    ensures Ready(m, System(Cleared(s), map[]))
  {
    ClearedSynced(m, s);
    hide Drain, Shaped, Cleared, ModesText, EnterText, Synced;
    EnterParts(titles, focus, mouse, keepFrame);
    var last := if keepFrame then "" else ERASE_SCREEN;
    var c, modes := Cleared(s), ModesText(focus, mouse, last);
    AlternateScreenFed(m, s, (if titles then PUSH_TITLE else "") + (HIDE_CURSOR + modes));
    TitlePushed(m, c, titles, HIDE_CURSOR + modes);
    CursorShownFed(m, c, modes);
    ModesFed(m, c, focus, mouse, last);
    EraseBlankFed(m, s, keepFrame);
  }
}
