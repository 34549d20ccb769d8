/** The renderer and the receiver together: a frame of which only the changed rows are written leaves the screen that writing
    every row would leave, because a row drawn over itself stays as it is. */
module Redraw {
  import opened Numbers
  import opened Strings
  import opened Terminal
  import opened Chunking
  import opened Snapshot
  import opened Renderer

  // ---------------------------------------------------------------------------
  // Painting one row

  /** A row while text is written on it. `inked` are the columns whose style the text has set; the others keep the style that
      was there before, even where a character without width makes the second cell of a wide glyph non-empty. */
  datatype Painted = Painted(pen: Pen, style: string, inked: set<nat>)

  function InkedAfter(m: Metrics, a: Painted, c: char): set<nat>
    requires PenShaped(a.pen)
  {
    if Joins(m, a.pen.cells, a.pen.x, c) || m.width([c]) == 0 then a.inked else a.inked + {a.pen.x}
  }

  /** One token of row text: a character that does not wrap, a style, or a sequence that draws nothing. */
  function PaintToken(m: Metrics, a: Painted, token: Token): (r: Option<Painted>)
    requires PenShaped(a.pen)
    ensures r.Some? ==> PenShaped(r.value.pen) && |r.value.pen.cells| == |a.pen.cells|
  {
    match token
    case Single(c) =>
      if !Printable(c) || Wraps(m, a.pen.cells, a.pen.x, c) then None
      else Some(Painted(PrintOn(m, a.pen, a.style, c), a.style, InkedAfter(m, a, c)))
    case Control(body, final) =>
      (match Interpret(body, final)
       case ResetStyle => Some(a.(style := ""))
       case AddStyle(added) => Some(a.(style := a.style + Sgr(added)))
       case Ignored => Some(a)
       case _ => None)
    case Skipped => Some(a)
    case Escape(_) => None
  }

  /** Row text written from the cursor on; `None` when it wraps, moves the cursor or stops inside a sequence. */
  function Paint(m: Metrics, a: Painted, p: string): (r: Option<Painted>)
    requires PenShaped(a.pen)
    ensures r.Some? ==> PenShaped(r.value.pen) && |r.value.pen.cells| == |a.pen.cells|
    decreases |p|
  {
    if p == "" then Some(a)
    else if Next(p).Incomplete? then None
    else
      var b := PaintToken(m, a, Next(p).token);
      if b.None? then None else Paint(m, b.value, p[Next(p).size..])
  }

  /** `s` with the cursor's row repainted. */
  function Repainted(s: Screen, a: Painted): (r: Screen)
    requires Shaped(s) && PenShaped(a.pen) && |a.pen.cells| == s.cols
    ensures Shaped(r)
  {
    WithRow(s, a.pen.cells, a.pen.inks, a.pen.x).(style := a.style)
  }

  function OnRow(s: Screen, inked: set<nat>): (a: Painted)
    requires Shaped(s)
    ensures PenShaped(a.pen) && |a.pen.cells| == s.cols
  {
    Painted(PenOf(s), s.style, inked)
  }

  lemma TokenPaints(m: Metrics, s: Screen, inked: set<nat>, token: Token)
    requires Shaped(s) && PaintToken(m, OnRow(s, inked), token).Some?
    ensures var b := PaintToken(m, OnRow(s, inked), token).value;
            Step(m, s, token) == Repainted(s, b) && OnRow(Repainted(s, b), b.inked) == b
  {
    hide RowsShaped, Interpret, PrintOn, NewLine;
    CursorRow(s);
    assert s.grid[s.y := s.grid[s.y]] == s.grid && s.styles[s.y := s.styles[s.y]] == s.styles;
  }

  lemma RepaintedTwice(s: Screen, a: Painted, b: Painted)
    requires Shaped(s) && PenShaped(a.pen) && |a.pen.cells| == s.cols && PenShaped(b.pen) && |b.pen.cells| == s.cols
    ensures Repainted(Repainted(s, a), b) == Repainted(s, b)
  {
    assert s.grid[s.y := a.pen.cells][s.y := b.pen.cells] == s.grid[s.y := b.pen.cells];
    assert s.styles[s.y := a.pen.inks][s.y := b.pen.inks] == s.styles[s.y := b.pen.inks];
  }

  lemma PaintOne(m: Metrics, a: Painted, p: string)
    requires PenShaped(a.pen)
    ensures p == "" ==> Paint(m, a, p) == Some(a)
    ensures p != "" && Paint(m, a, p).Some? ==>
              && Next(p).Lexeme? && PaintToken(m, a, Next(p).token).Some?
              && Paint(m, a, p) == Paint(m, PaintToken(m, a, Next(p).token).value, p[Next(p).size..])
  {
    hide PaintToken, Next;
  }

  lemma RepaintedAsIs(s: Screen, inked: set<nat>)
    requires Shaped(s)
    ensures Repainted(s, OnRow(s, inked)) == s
  {
    assert s.grid[s.y := s.grid[s.y]] == s.grid && s.styles[s.y := s.styles[s.y]] == s.styles;
  }

  /** Row text fed to the receiver changes the cursor's row only, as `Paint` says. */
  lemma {:induction false} TextPaints(m: Metrics, s: Screen, inked: set<nat>, p: string, rest: string)
    requires Shaped(s) && Paint(m, OnRow(s, inked), p).Some?
    ensures Drain(m, s, p + rest) == Drain(m, Repainted(s, Paint(m, OnRow(s, inked), p).value), rest)
    decreases |p|
  {
    hide Drain, RowsShaped, Step, Next, PaintToken, Paint, Repainted, OnRow;
    PaintOne(m, OnRow(s, inked), p);
    if p == "" {
      assert p + rest == rest;
      RepaintedAsIs(s, inked);
    } else {
      var Lexeme(token, size) := Next(p);
      NextOfLongerInput(p, rest);
      DrainOne(m, s, p + rest);
      assert (p + rest)[size..] == p[size..] + rest;
      TokenPaints(m, s, inked, token);
      var b := PaintToken(m, OnRow(s, inked), token).value;
      TextPaints(m, Repainted(s, b), b.inked, p[size..], rest);
      RepaintedTwice(s, b, Paint(m, b, p[size..]).value);
    }
  }

  // ---------------------------------------------------------------------------
  // What was on the row before does not matter

  /** Two rows being painted agree in every cell left of the cursor, in every style the text has set, and in both from column
      `q` on. */
  predicate Agree(a: Painted, b: Painted, q: nat)
    requires PenShaped(a.pen) && PenShaped(b.pen)
  {
    && a.pen.x == b.pen.x && |a.pen.cells| == |b.pen.cells| && a.style == b.style && a.inked == b.inked
    && forall k :: 0 <= k < |a.pen.cells| ==> AgreeAt(a, b, q, k)
  }

  predicate AgreeAt(a: Painted, b: Painted, q: nat, k: nat)
    requires PenShaped(a.pen) && PenShaped(b.pen) && k < |a.pen.cells| && k < |b.pen.cells|
  {
    && (k < a.pen.x || q <= k ==> a.pen.cells[k] == b.pen.cells[k])
    && (k in a.inked || q <= k ==> a.pen.inks[k] == b.pen.inks[k])
  }

  lemma SameLead(a: Painted, b: Painted, q: nat)
    requires PenShaped(a.pen) && PenShaped(b.pen) && Agree(a, b, q) && 0 < a.pen.x
    ensures Before(a.pen.cells, a.pen.x) == Before(b.pen.cells, b.pen.x)
    ensures a.pen.cells[Before(a.pen.cells, a.pen.x)] == b.pen.cells[Before(b.pen.cells, b.pen.x)]
  {
    var p := Min(a.pen.x, |a.pen.cells|);
    forall k | 0 <= k < p ensures a.pen.cells[k] == b.pen.cells[k] {
      assert AgreeAt(a, b, q, k);
    }
    assert a.pen.cells[..p] == b.pen.cells[..p];
    LeadOfPrefix(a.pen.cells, b.pen.cells, p);
  }

  lemma PrintAgrees(m: Metrics, a: Painted, b: Painted, q: nat, c: char)
    requires PenShaped(a.pen) && PenShaped(b.pen) && Agree(a, b, q) && Printable(c) && !Wraps(m, a.pen.cells, a.pen.x, c)
    ensures !Wraps(m, b.pen.cells, b.pen.x, c)
    ensures var r, t := PaintToken(m, a, Single(c)).value, PaintToken(m, b, Single(c)).value; Agree(r, t, q)
  {
    hide Before;
    if 0 < a.pen.x { SameLead(a, b, q); }
    var at := Min(a.pen.x - 1, |a.pen.cells| - 1);
    if 0 <= at { assert AgreeAt(a, b, q, at); }
    var r, t := PaintToken(m, a, Single(c)).value, PaintToken(m, b, Single(c)).value;
    forall k | 0 <= k < |r.pen.cells| ensures AgreeAt(r, t, q, k) {
      assert AgreeAt(a, b, q, k);
    }
  }

  lemma TokenAgrees(m: Metrics, a: Painted, b: Painted, q: nat, token: Token)
    requires PenShaped(a.pen) && PenShaped(b.pen) && Agree(a, b, q) && PaintToken(m, a, token).Some?
    ensures PaintToken(m, b, token).Some? && Agree(PaintToken(m, a, token).value, PaintToken(m, b, token).value, q)
  {
    hide Interpret, PrintOn, Wraps, InkedAfter;
    match token
    case Single(c) => PrintAgrees(m, a, b, q, c);
    case Escape(_) =>
    case _ =>
      var r, t := PaintToken(m, a, token).value, PaintToken(m, b, token).value;
      forall k | 0 <= k < |r.pen.cells| ensures AgreeAt(r, t, q, k) {
        assert AgreeAt(a, b, q, k);
      }
  }

  lemma {:induction false} PaintAgrees(m: Metrics, a: Painted, b: Painted, q: nat, p: string)
    requires PenShaped(a.pen) && PenShaped(b.pen) && Agree(a, b, q) && Paint(m, a, p).Some?
    ensures Paint(m, b, p).Some? && Agree(Paint(m, a, p).value, Paint(m, b, p).value, q)
    decreases |p|
  {
    hide PaintToken, Next, Agree;
    if p != "" {
      var Lexeme(token, size) := Next(p);
      TokenAgrees(m, a, b, q, token);
      PaintAgrees(m, PaintToken(m, a, token).value, PaintToken(m, b, token).value, q, p[size..]);
    }
  }

  lemma TokenKeepsInks(m: Metrics, a: Painted, token: Token)
    requires PenShaped(a.pen) && PaintToken(m, a, token).Some?
    ensures var b := PaintToken(m, a, token).value;
            a.inked <= b.inked && forall k :: 0 <= k < |a.pen.inks| && k !in b.inked ==> b.pen.inks[k] == a.pen.inks[k]
  {
    hide Interpret, Before, Placed;
  }

  /** A style the text has not set is the style that was there. */
  lemma {:induction false} PaintKeepsInks(m: Metrics, a: Painted, p: string)
    requires PenShaped(a.pen) && Paint(m, a, p).Some?
    ensures var b := Paint(m, a, p).value;
            a.inked <= b.inked && forall k :: 0 <= k < |a.pen.inks| && k !in b.inked ==> b.pen.inks[k] == a.pen.inks[k]
    decreases |p|
  {
    hide PaintToken, Next;
    if p != "" {
      TokenKeepsInks(m, a, Next(p).token);
      PaintKeepsInks(m, PaintToken(m, a, Next(p).token).value, p[Next(p).size..]);
    }
  }

  // ---------------------------------------------------------------------------
  // One row of a frame

  function BlankLine(cols: nat): (a: Painted)
    requires 2 <= cols
    ensures PenShaped(a.pen) && |a.pen.cells| == cols
  {
    Painted(Pen(BlankRow(cols, " "), BlankRow(cols, ""), 0), "", {})
  }

  function Columns(start: nat, end: nat): (columns: set<nat>)
    ensures forall k :: k in columns <==> start <= k < end
    decreases end - start
  {
    if start >= end then {} else {start} + Columns(start + 1, end)
  }

  /** The rest of a row that is not full is erased: what is right of the text is blank either way. */
  function Finished(a: Painted, room: nat): (r: Painted)
    requires PenShaped(a.pen) && room <= |a.pen.cells|
    ensures PenShaped(r.pen) && |r.pen.cells| == |a.pen.cells| && r.style == a.style
  {
    var cols, x := |a.pen.cells|, a.pen.x;
    var pen := if x < room then Pen(Filled(a.pen.cells, " ", x, cols), Filled(a.pen.inks, a.style, x, cols), x) else a.pen;
    Painted(pen, a.style, a.inked + Columns(x, cols))
  }

  /** What a row's encoding looks like on a blank row. */
  function Picture(m: Metrics, cols: nat, room: nat, out: string): (a: Painted)
    requires 2 <= cols && room <= cols
    ensures PenShaped(a.pen) && |a.pen.cells| == cols
  {
    var painted := Paint(m, BlankLine(cols), out);
    if painted.Some? then Finished(painted.value, room) else BlankLine(cols)
  }

  /** The cells from `room` on are blank. */
  predicate BlankFrom(a: Painted, room: nat)
    requires PenShaped(a.pen)
  {
    forall k :: room <= k < |a.pen.cells| ==> a.pen.cells[k] == " " && a.pen.inks[k] == ""
  }

  /** The layout and the receiver measure a row alike: its text does not wrap, leaves the cursor after as many cells as the
      layout counted, switches its styles off, and leaves the cells it may not write alone. */
  predicate Measured(m: Metrics, cols: nat, room: nat, e: Encoded)
    requires 2 <= cols && room <= cols
  {
    var painted := Paint(m, BlankLine(cols), e.out);
    && painted.Some? && painted.value.pen.x == e.used && e.used <= room && painted.value.style == ""
    && BlankFrom(Picture(m, cols, room, e.out), room)
  }

  /** A screen row shows a picture: every cell, and every style the picture has set. */
  predicate RowShows(cells: Row, inks: Row, a: Painted)
    requires PenShaped(a.pen)
  {
    && cells == a.pen.cells && |inks| == |cells|
    && forall k :: 0 <= k < |cells| && k in a.inked ==> inks[k] == a.pen.inks[k]
  }

  lemma EraseRestApplied(m: Metrics, s: Screen, rest: string)
    requires Shaped(s) && s.x < s.cols
    ensures Drain(m, s, ERASE_TO_END + rest) == Drain(m,
              WithRow(s, Filled(s.grid[s.y], " ", s.x, s.cols), Filled(s.styles[s.y], s.style, s.x, s.cols), s.x), rest)
  {
    hide Drain, RowsShaped, Interpret, ControlSequence, Filled;
    CursorRow(s);
    EraseToEndAction();
    ControlFed(m, s, ERASE_TO_END, 2, rest);
  }

  lemma EraseToEndAction()
    ensures ControlSequence(ERASE_TO_END, 2) && |ERASE_TO_END| == 3
    ensures Interpret(ERASE_TO_END[2..2], ERASE_TO_END[2]) == Action.EraseLine(0)
  {
    assert ERASE_TO_END[2..2] == "";
  }

  lemma FinishedShows(a: Painted, b: Painted, room: nat)
    requires PenShaped(a.pen) && PenShaped(b.pen) && Agree(a, b, room) && room <= |a.pen.cells| && a.pen.x <= room
    ensures var r := Finished(b, room); RowShows(r.pen.cells, r.pen.inks, Finished(a, room)) && r.inked == Finished(a, room).inked
  {
    var r, t := Finished(b, room).pen, Finished(a, room).pen;
    forall k | 0 <= k < |r.cells|
      ensures r.cells[k] == t.cells[k] && (k in Finished(a, room).inked ==> r.inks[k] == t.inks[k])
    {
      assert AgreeAt(a, b, room, k);
    }
  }

  // ---------------------------------------------------------------------------
  // Drawing a row over what was there

  /** A row at rest: the cursor at its start, and blank in the cells that may not be written. */
  predicate AtRest(p: Pen, cols: nat, room: nat) {
    PenShaped(p) && |p.cells| == cols && p.x == 0 && room <= cols && BlankFrom(Painted(p, "", {}), room)
  }

  /** The row `p` with a row's text, and where there is room the erase after it, written over it. */
  function Redone(m: Metrics, p: Pen, room: nat, out: string): (r: Pen)
    requires PenShaped(p) && room <= |p.cells|
    ensures PenShaped(r) && |r.cells| == |p.cells|
  {
    var b := Paint(m, Painted(p, "", {}), out);
    if b.None? then p else Finished(b.value, room).pen.(x := 0)
  }

  /** Two rows at rest, painted with the same text. */
  lemma PaintedAlike(m: Metrics, p: Pen, q: Pen, cols: nat, room: nat, e: Encoded)
    requires 2 <= cols && AtRest(p, cols, room) && AtRest(q, cols, room) && Measured(m, cols, room, e)
    ensures var a, b := Paint(m, Painted(p, "", {}), e.out), Paint(m, Painted(q, "", {}), e.out);
            && a.Some? && b.Some? && |a.value.pen.cells| == |b.value.pen.cells| == cols
            && Agree(a.value, b.value, room) && a.value.pen.x == e.used <= room && a.value.style == ""
    ensures Paint(m, Painted(p, "", {}), e.out).value.inked == Paint(m, BlankLine(cols), e.out).value.inked
  {
    hide Paint;
    var blank := BlankLine(cols);
    PaintAgrees(m, blank, Painted(p, "", {}), room, e.out);
    PaintAgrees(m, Painted(p, "", {}), Painted(q, "", {}), room, e.out);
  }

  lemma BlankAtRest(cols: nat, room: nat)
    requires 2 <= cols && room <= cols
    ensures AtRest(BlankLine(cols).pen, cols, room) && BlankLine(cols) == Painted(BlankLine(cols).pen, "", {})
  {
  }

  /** What a row looks like after its text was drawn on it: the text's picture, whatever was there before. */
  lemma RedoneShows(m: Metrics, p: Pen, cols: nat, room: nat, e: Encoded)
    requires 2 <= cols && AtRest(p, cols, room) && Measured(m, cols, room, e)
    ensures var r := Redone(m, p, room, e.out); RowShows(r.cells, r.inks, Picture(m, cols, room, e.out)) && AtRest(r, cols, room)
  {
    BlankAtRest(cols, room);
    PaintedAlike(m, BlankLine(cols).pen, p, cols, room, e);
    hide Paint, BlankLine;
    FinishedShows(Paint(m, BlankLine(cols), e.out).value, Paint(m, Painted(p, "", {}), e.out).value, room);
  }

  /** Drawing a row once more over itself changes nothing, in any cell or any style. */
  lemma RedoneTwice(m: Metrics, p: Pen, cols: nat, room: nat, e: Encoded)
    requires 2 <= cols && AtRest(p, cols, room) && Measured(m, cols, room, e)
    ensures Redone(m, Redone(m, p, room, e.out), room, e.out) == Redone(m, p, room, e.out)
  {
    var r := Redone(m, p, room, e.out);
    RedoneShows(m, p, cols, room, e);
    PaintedAlike(m, p, r, cols, room, e);
    PaintKeepsInks(m, Painted(r, "", {}), e.out);
    hide Paint, Measured;
    var b, c := Paint(m, Painted(p, "", {}), e.out).value, Paint(m, Painted(r, "", {}), e.out).value;
    assert c == Paint(m, Painted(r, "", {}), e.out).value;
    FinishedAgain(b, c, r, room);
  }

  lemma FinishedAgain(b: Painted, c: Painted, r: Pen, room: nat)
    requires PenShaped(b.pen) && PenShaped(c.pen) && PenShaped(r) && |r.cells| == |b.pen.cells| && b.pen.x <= room <= |r.cells|
    requires r == Finished(b, room).pen.(x := 0) && Agree(b, c, room)
    requires forall k :: 0 <= k < |r.inks| && k !in c.inked ==> c.pen.inks[k] == r.inks[k]
    ensures Finished(c, room).pen.(x := 0) == r
  {
    FinishedShows(b, c, room);
    var t := Finished(c, room).pen;
    forall k | 0 <= k < |r.inks| ensures t.inks[k] == r.inks[k] {
      if k < b.pen.x && k !in b.inked { assert t.inks[k] == c.pen.inks[k]; }
    }
    assert t.inks == r.inks;
  }

  /** Every non-empty cell of a picture has a style of the picture's own. */
  ghost predicate SelfStyled(a: Painted)
    requires PenShaped(a.pen)
  {
    forall k :: 0 <= k < |a.pen.cells| && a.pen.cells[k] != "" ==> k in a.inked
  }

  /** Two rows look alike: the same cells, and the same style on every non-empty one. */
  predicate LookAlike(p: Pen, q: Pen)
    requires PenShaped(p) && PenShaped(q)
  {
    p.cells == q.cells && forall k :: 0 <= k < |p.cells| && p.cells[k] != "" ==> p.inks[k] == q.inks[k]
  }

  /** A row looks alike whatever it was drawn over exactly when every non-empty cell of its picture has its own style. */
  lemma HistoryHidden(m: Metrics, cols: nat, room: nat, e: Encoded)
    requires 2 <= cols && room <= cols && Measured(m, cols, room, e)
    ensures SelfStyled(Picture(m, cols, room, e.out)) <==>
              forall p, q :: AtRest(p, cols, room) && AtRest(q, cols, room) ==>
                LookAlike(Redone(m, p, room, e.out), Redone(m, q, room, e.out))
  {
    hide Redone, Picture, Measured, BlankFrom;
    if SelfStyled(Picture(m, cols, room, e.out)) {
      forall p, q | AtRest(p, cols, room) && AtRest(q, cols, room)
        ensures LookAlike(Redone(m, p, room, e.out), Redone(m, q, room, e.out))
      {
        RedoneShows(m, p, cols, room, e);
        RedoneShows(m, q, cols, room, e);
      }
    } else {
      var a := Picture(m, cols, room, e.out);
      var k :| 0 <= k < |a.pen.cells| && a.pen.cells[k] != "" && k !in a.inked;
      HistoryShows(m, cols, room, e, k);
    }
  }

  /** A non-empty cell without a style of its own shows the style that was there. */
  lemma HistoryShows(m: Metrics, cols: nat, room: nat, e: Encoded, k: nat)
    requires 2 <= cols && room <= cols && Measured(m, cols, room, e)
    requires k < cols && var a := Picture(m, cols, room, e.out); a.pen.cells[k] != "" && k !in a.inked
    ensures var p := BlankLine(cols).pen;
            var q := p.(inks := p.inks[k := Sgr("1")]);
            && AtRest(p, cols, room) && AtRest(q, cols, room)
            && !LookAlike(Redone(m, p, room, e.out), Redone(m, q, room, e.out))
  {
    BlankAtRest(cols, room);
    var p := BlankLine(cols).pen;
    var q := p.(inks := p.inks[k := Sgr("1")]);
    var a := Paint(m, Painted(p, "", {}), e.out).value;
    assert a.pen.x == e.used <= room && k < a.pen.x;
    PaintedAlike(m, p, q, cols, room, e);
    PaintKeepsInks(m, Painted(p, "", {}), e.out);
    PaintKeepsInks(m, Painted(q, "", {}), e.out);
    hide Paint, Agree;
    assert Redone(m, p, room, e.out).inks[k] == "" && Redone(m, q, room, e.out).inks[k] == Sgr("1") != "";
  }

  lemma RestErased(m: Metrics, s: Screen, b: Painted, room: nat, rest: string)
    requires Shaped(s) && PenShaped(b.pen) && |b.pen.cells| == s.cols && b.pen.x <= room <= s.cols && b.style == ""
    ensures Drain(m, Repainted(s, b), (if b.pen.x < room then ERASE_TO_END else "") + rest)
         == Drain(m, Repainted(s, Finished(b, room)), rest)
  {
    hide Drain, RowsShaped;
    CursorRow(s);
    if b.pen.x < room {
      CursorRow(Repainted(s, b));
      EraseRestApplied(m, Repainted(s, b), rest);
      RepaintedTwice(s, b, Finished(b, room));
    } else {
      assert "" + rest == rest;
    }
  }

  /** Text and, where there is room, the erase after it: the cursor's row is redone and nothing else changes. */
  lemma RowTextFed(m: Metrics, s: Screen, e: Encoded, room: nat, rest: string) returns (r: Screen)
    requires Shaped(s) && room <= s.cols && Measured(m, s.cols, room, e) && s.x == 0 && s.style == ""
    requires AtRest(PenOf(s), s.cols, room)
    ensures var done := Redone(m, PenOf(s), room, e.out);
            Shaped(r) && r.(x := s.x) == s.(grid := s.grid[s.y := done.cells], styles := s.styles[s.y := done.inks])
    ensures Drain(m, s, e.out + ((if e.used < room then ERASE_TO_END else "") + rest)) == Drain(m, r, rest)
  {
    hide Drain, RowsShaped, Paint, BlankFrom, Measured, Finished, Picture, AtRest, Agree;
    CursorRow(s);
    PaintedAlike(m, PenOf(s), PenOf(s), s.cols, room, e);
    TextPaints(m, s, {}, e.out, (if e.used < room then ERASE_TO_END else "") + rest);
    var b := Paint(m, OnRow(s, {}), e.out).value;
    RestErased(m, s, b, room, rest);
    r := Repainted(s, Finished(b, room));
  }

  // ---------------------------------------------------------------------------
  // Cursor moves and modes

  lemma {:induction false} TrimNothing(s: string, c: char)
    requires s != [] && s[|s| - 1] != c
    ensures TrimRight(s, c) == s
  {
  }

  lemma NumberOfDecimal(n: nat)
    ensures Number(Decimal(n)) == n
  {
    var d := Decimal(n);
    assert Digit(d[|d| - 1]);
    TrimNothing(d, ' ');
  }

  lemma TwoArgs(a: string, b: string)
    requires ';' !in a && ';' !in b
    ensures Args(a + ";" + b) == [Number(a), Number(b)]
  {
    SplitAtSeparator(a, b, ';');
    SplitWithoutSeparator(b, ';');
    hide Split, Number;
  }

  lemma DecimalHasNoSeparator(n: nat)
    ensures ';' !in Decimal(n)
  {
    hide Decimal;
    assert !Digit(';');
  }

  lemma MoveArgs(row: nat, col: nat)
    ensures Interpret(Decimal(row + 1) + ";" + Decimal(col + 1), 'H') == MoveTo(row, col)
  {
    hide Args, Number, Decimal, Split;
    DecimalHasNoSeparator(row + 1);
    DecimalHasNoSeparator(col + 1);
    TwoArgs(Decimal(row + 1), Decimal(col + 1));
    NumberOfDecimal(row + 1);
    NumberOfDecimal(col + 1);
  }

  lemma MoveIsControlSequence(row: nat, col: nat)
    ensures var text := MoveSequence(row, col);
            && 3 <= |text| && ControlSequence(text, |text| - 1) && text[|text| - 1] == 'H'
            && text[2..|text| - 1] == Decimal(row + 1) + ";" + Decimal(col + 1)
  {
    var text, a, b := MoveSequence(row, col), Decimal(row + 1), Decimal(col + 1);
    hide Decimal;
    var body := a + ";" + b;
    assert text == [ESC, '['] + body + "H";
    forall k | 2 <= k < |text| - 1 ensures Parameter(text[k]) {
      assert text[k] == body[k - 2];
      if k - 2 < |a| { assert Digit(a[k - 2]); }
      else if k - 2 > |a| { assert Digit(b[k - 3 - |a|]); }
    }
    assert text[2..|text| - 1] == body;
  }

  /** An absolute move, as the renderer writes it and the receiver reads it. */
  lemma MoveFed(m: Metrics, s: Screen, row: nat, col: nat, rest: string)
    requires Shaped(s)
    ensures Drain(m, s, MoveSequence(row, col) + rest)
         == Drain(m, s.(y := Min(s.rows - 1, row), x := Min(s.cols - 1, col)), rest)
  {
    hide Drain, Interpret, RowsShaped, MoveSequence, ControlSequence;
    MoveIsControlSequence(row, col);
    var text := MoveSequence(row, col);
    ControlFed(m, s, text, |text| - 1, rest);
    MoveArgs(row, col);
  }

  // ---------------------------------------------------------------------------
  // One frame

  function Room(s: Screen, y: nat): (room: nat)
    requires Shaped(s)
    ensures room <= s.cols
  {
    RoomOf(s.cols, s.rows, y)
  }

  function RowPen(s: Screen, y: nat): (p: Pen)
    requires Shaped(s) && y < s.rows
    ensures PenShaped(p) && |p.cells| == s.cols
  {
    Pen(s.grid[y], s.styles[y], 0)
  }

  /** What the renderer remembers is what the receiver shows, and the cells it never writes are blank. */
  predicate Synced(m: Metrics, s: Screen, known: map<nat, string>) {
    && Shaped(s) && s.style == ""
    && forall y :: 0 <= y < s.rows ==> RowSynced(m, s, known, y)
  }

  /** A remembered row shows its picture, and drawing it again would change nothing. */
  predicate RowSynced(m: Metrics, s: Screen, known: map<nat, string>, y: nat)
    requires Shaped(s) && y < s.rows
  {
    && (y in known ==>
          && RowShows(s.grid[y], s.styles[y], Picture(m, s.cols, Room(s, y), known[y]))
          && Redone(m, RowPen(s, y), Room(s, y), known[y]) == RowPen(s, y))
    && AtRest(RowPen(s, y), s.cols, Room(s, y))
  }

  predicate FrameMeasured(m: Metrics, rows: seq<Line>, width: nat, height: nat)
    requires 2 <= width
  {
    forall y :: 0 <= y < height ==> Measured(m, width, RoomOf(width, height, y), EncodeRow(rows, width, height, y))
  }

  /** `s` with one row of text drawn on it. */
  predicate OneRowDrawn(m: Metrics, s: Screen, r: Screen, y: nat, out: string)
    requires Shaped(s) && y < s.rows
  {
    var done := Redone(m, RowPen(s, y), Room(s, y), out);
    && Shaped(r) && r.(x := s.x, y := s.y) == s.(grid := s.grid[y := done.cells], styles := s.styles[y := done.inks])
  }

  lemma RowSyncs(m: Metrics, s: Screen, r: Screen, known: map<nat, string>, y: nat, e: Encoded)
    requires Synced(m, s, known) && y < s.rows && Measured(m, s.cols, Room(s, y), e) && OneRowDrawn(m, s, r, y, e.out)
    ensures Synced(m, r, known[y := e.out])
  {
    hide RowShows, Picture, Redone, AtRest, Measured;
    assert RowSynced(m, s, known, y);
    RedoneShows(m, RowPen(s, y), s.cols, Room(s, y), e);
    RedoneTwice(m, RowPen(s, y), s.cols, Room(s, y), e);
    var now := known[y := e.out];
    assert RowPen(r, y) == Redone(m, RowPen(s, y), Room(s, y), e.out) by { RedoneHome(m, RowPen(s, y), Room(s, y), e.out); }
    forall j | 0 <= j < r.rows ensures RowSynced(m, r, now, j) {
      assert RowSynced(m, s, known, j);
      if j != y { assert r.grid[j] == s.grid[j] && r.styles[j] == s.styles[j]; }
    }
  }

  lemma RedoneHome(m: Metrics, p: Pen, room: nat, out: string)
    requires PenShaped(p) && room <= |p.cells| && p.x == 0
    ensures Redone(m, p, room, out).x == 0
  {
    hide Paint, Finished;
  }

  lemma RowTextGrouped(y: nat, e: Encoded, room: nat, rest: string)
    ensures RowText(y, e, room) + rest
         == MoveSequence(y, 0) + (e.out + ((if e.used < room then ERASE_TO_END else "") + rest))
  {
    hide MoveSequence;
  }

  /** Drawing one row: that row is redone, and no other row, no style in force and no counter changes. */
  lemma RowFed(m: Metrics, s: Screen, known: map<nat, string>, y: nat, e: Encoded, rest: string) returns (r: Screen)
    requires Synced(m, s, known) && y < s.rows && Measured(m, s.cols, Room(s, y), e)
    ensures OneRowDrawn(m, s, r, y, e.out) && Synced(m, r, known[y := e.out])
    ensures Drain(m, s, RowText(y, e, Room(s, y)) + rest) == Drain(m, r, rest)
  {
    var room := Room(s, y);
    var home := s.(y := y, x := 0);
    assert RowSynced(m, s, known, y) && PenOf(home) == RowPen(s, y);
    hide Drain, RowsShaped, Measured, RowShows, Picture, MoveSequence, RowSynced, RowText, AtRest, Redone, Synced;
    RowTextGrouped(y, e, room, rest);
    MoveFed(m, s, y, 0, e.out + ((if e.used < room then ERASE_TO_END else "") + rest));
    r := RowTextFed(m, home, e, room, rest);
    RowSyncs(m, s, r, known, y, e);
  }

  lemma ChangedRowsGrouped(previous: map<nat, string>, rows: seq<Line>, width: nat, height: nat, y: nat, rest: string)
    requires 1 <= width && y < height
    ensures var e, later := EncodeRow(rows, width, height, y), ChangedRows(previous, rows, width, height, y + 1) + rest;
            ChangedRows(previous, rows, width, height, y) + rest ==
            if y in previous && previous[y] == e.out then later else RowText(y, e, RoomOf(width, height, y)) + later
  {
    hide EncodeRow, RowText;
  }

  lemma FrameRow(m: Metrics, rows: seq<Line>, width: nat, height: nat, y: nat)
    requires 2 <= width && y < height && FrameMeasured(m, rows, width, height)
    ensures Measured(m, width, RoomOf(width, height, y), EncodeRow(rows, width, height, y))
  {
  }

  /** `r` is `s` with the rows from `y` on redone, and nothing else changed but the cursor. */
  predicate RowsDrawn(m: Metrics, s: Screen, r: Screen, rows: seq<Line>, y: nat)
    requires Shaped(s)
  {
    && Shaped(r) && r.(x := s.x, y := s.y, grid := s.grid, styles := s.styles) == s
    && forall j :: 0 <= j < s.rows ==> RowDrawn(m, s, r, rows, y, j)
  }

  predicate RowDrawn(m: Metrics, s: Screen, r: Screen, rows: seq<Line>, y: nat, j: nat)
    requires Shaped(s) && Shaped(r) && r.rows == s.rows && r.cols == s.cols && j < s.rows
  {
    RowPen(r, j) ==
    if j < y then RowPen(s, j) else Redone(m, RowPen(s, j), Room(s, j), EncodeRow(rows, s.cols, s.rows, j).out)
  }

  /** A row that did not change is as if drawn again. */
  lemma SkippedRow(m: Metrics, s: Screen, known: map<nat, string>, r: Screen, rows: seq<Line>, y: nat)
    requires Synced(m, s, known) && y < s.rows && y in known && known[y] == EncodeRow(rows, s.cols, s.rows, y).out
    requires RowsDrawn(m, s, r, rows, y + 1)
    ensures RowsDrawn(m, s, r, rows, y)
  {
    hide Redone, EncodeRow, RowShows, Picture, AtRest;
    assert RowSynced(m, s, known, y);
    forall j | 0 <= j < s.rows ensures RowDrawn(m, s, r, rows, y, j) {
      assert RowDrawn(m, s, r, rows, y + 1, j);
    }
  }

  lemma DrawnRow(m: Metrics, s: Screen, next: Screen, r: Screen, rows: seq<Line>, y: nat)
    requires Shaped(s) && y < s.rows && OneRowDrawn(m, s, next, y, EncodeRow(rows, s.cols, s.rows, y).out)
    requires RowsDrawn(m, next, r, rows, y + 1)
    ensures RowsDrawn(m, s, r, rows, y)
  {
    hide Redone, EncodeRow;
    RedoneHome(m, RowPen(s, y), Room(s, y), EncodeRow(rows, s.cols, s.rows, y).out);
    forall j | 0 <= j < s.rows ensures RowDrawn(m, s, r, rows, y, j) {
      assert RowDrawn(m, next, r, rows, y + 1, j);
      if j != y { assert RowPen(next, j) == RowPen(s, j); }
    }
  }

  lemma NothingDrawn(m: Metrics, s: Screen, rows: seq<Line>)
    requires Shaped(s)
    ensures RowsDrawn(m, s, s, rows, s.rows)
  {
    hide Redone, EncodeRow;
  }

  /** The rows that changed, drawn over a screen the renderer knows, leave what drawing every row would leave. */
  lemma {:induction false} ChangedRowsFed(m: Metrics, s: Screen, previous: map<nat, string>, rows: seq<Line>, y: nat, rest: string)
    returns (r: Screen)
    requires Shaped(s) && y <= s.rows && Synced(m, s, previous + Drawn(rows, s.cols, s.rows, y))
    requires FrameMeasured(m, rows, s.cols, s.rows)
    ensures RowsDrawn(m, s, r, rows, y) && Synced(m, r, previous + Drawn(rows, s.cols, s.rows, s.rows))
    ensures Drain(m, s, ChangedRows(previous, rows, s.cols, s.rows, y) + rest) == Drain(m, r, rest)
    decreases s.rows - y
  {
    hide Drain, Shaped, Synced, RowText, Drawn, EncodeRow, Measured, FrameMeasured, ChangedRows, RowDrawn, Redone;
    CursorRow(s);
    if y == s.rows {
      ChangedNothing(previous, rows, s.cols, s.rows);
      assert "" + rest == rest;
      r := s;
      NothingDrawn(m, s, rows);
    } else {
      FrameRow(m, rows, s.cols, s.rows, y);
      ChangedRowsGrouped(previous, rows, s.cols, s.rows, y, rest);
      DrawnNext(previous, rows, s.cols, s.rows, y);
      var e := EncodeRow(rows, s.cols, s.rows, y);
      var known := previous + Drawn(rows, s.cols, s.rows, y);
      if y in previous && previous[y] == e.out {
        r := ChangedRowsFed(m, s, previous, rows, y + 1, rest);
        SkippedRow(m, s, known, r, rows, y);
      } else {
        var later := ChangedRows(previous, rows, s.cols, s.rows, y + 1) + rest;
        var next := RowFed(m, s, known, y, e, later);
        r := ChangedRowsFed(m, next, previous, rows, y + 1, rest);
        DrawnRow(m, s, next, r, rows, y);
      }
    }
  }
}
