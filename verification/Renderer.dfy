/** The differential renderer that feeds the receiver: it encodes every row of a frame and writes only the rows whose
    encoding changed. Modelled on the alternate screen, without images. */
module Renderer {
  import opened Numbers
  import opened Strings
  import opened Terminal

  /** One grapheme of a span as the layout measured it. */
  datatype Cell = Cell(text: string, width: nat)

  /** Styled text: `style` is its SGR sequence or "", `link` the hyperlink target when links are drawn. */
  datatype Span = Span(cells: seq<Cell>, style: string, link: Option<string>)

  type Line = seq<Span>

  datatype Taken = Taken(text: string, width: nat)

  /** The longest prefix of `cells` that fits in `room`, line breaks dropped. */
  function TakeCells(cells: seq<Cell>, room: nat): (t: Taken)
    ensures t.width <= room
  {
    if cells == [] then Taken("", 0)
    else if cells[0].text == "\n" then TakeCells(cells[1..], room)
    else if cells[0].width > room then Taken("", 0)
    else
      var rest := TakeCells(cells[1..], room - cells[0].width);
      Taken(cells[0].text + rest.text, cells[0].width + rest.width)
  }

  /** Text of narrow one-character graphemes, which the renderer cuts without walking it. */
  predicate Narrow(cells: seq<Cell>) {
    forall i :: 0 <= i < |cells| ==> |cells[i].text| == 1 && cells[i].text != "\n" && cells[i].width == 1
  }

  function TextOf(cells: seq<Cell>): string {
    if cells == [] then "" else cells[0].text + TextOf(cells[1..])
  }

  /** The fast cut of narrow text is the walk. */
  lemma {:induction false} NarrowCutIsWalk(cells: seq<Cell>, room: nat)
    requires Narrow(cells)
    ensures var text, width := TextOf(cells), Min(|cells|, room);
            |text| == |cells| && TakeCells(cells, room) == Taken(text[..width], width)
  {
    if cells != [] {
      NarrowCutIsWalk(cells[1..], if room == 0 then 0 else room - 1);
      if room > 0 {
        var rest, width := TextOf(cells[1..]), Min(|cells| - 1, room - 1);
        assert cells[0].text + rest[..width] == (cells[0].text + rest)[..width + 1];
      }
    }
  }

  datatype Encoded = Encoded(out: string, used: nat)

  function LinkOpen(uri: string): string { [ESC] + "]8;;" + uri + [ESC, '\\'] }

  const LINK_CLOSE: string := [ESC] + "]8;;" + [ESC, '\\']

  const RESET: string := Sgr("0")

  /** The text of a span between what turns its style and its link on and off. */
  function Dressed(span: Span, text: string): string {
    var body := if span.style != "" then span.style + text + RESET else text;
    if span.link.Some? then LinkOpen(span.link.value) + body + LINK_CLOSE else body
  }

  /** A row as the escape string to write and the cells it fills. */
  function Encode(line: Line, room: nat): (e: Encoded)
    ensures e.used <= room
    decreases |line|
  {
    if line == [] then Encoded("", 0)
    else
      var taken := TakeCells(line[0].cells, room);
      var left := room - taken.width;
      if taken.text == "" then
        var rest := Encode(line[1..], left);
        Encoded(rest.out, taken.width + rest.used)
      else if left == 0 then Encoded(Dressed(line[0], taken.text), taken.width)
      else
        var rest := Encode(line[1..], left);
        Encoded(Dressed(line[0], taken.text) + rest.out, taken.width + rest.used)
  }

  /** The cells of row `y` the renderer may write: all but the bottom-right one of the screen. */
  function RoomOf(width: nat, height: nat, y: nat): nat
    requires 1 <= width
  {
    if y + 1 == height then width - 1 else width
  }

  function EncodeRow(rows: seq<Line>, width: nat, height: nat, y: nat): (e: Encoded)
    requires 1 <= width
    ensures e.used <= RoomOf(width, height, y)
  {
    Encode(if y < |rows| then rows[y] else [], RoomOf(width, height, y))
  }

  function MoveSequence(row: nat, col: nat): string {
    [ESC, '['] + Decimal(row + 1) + ";" + Decimal(col + 1) + "H"
  }

  const ERASE_TO_END: string := [ESC] + "[K"

  function RowText(y: nat, e: Encoded, room: nat): string {
    MoveSequence(y, 0) + e.out + (if e.used < room then ERASE_TO_END else "")
  }

  /** The rows from `y` on that differ from what was drawn before. */
  function ChangedRows(previous: map<nat, string>, rows: seq<Line>, width: nat, height: nat, y: nat): string
    requires 1 <= width && y <= height
    decreases height - y
  {
    if y == height then ""
    else
      var e := EncodeRow(rows, width, height, y);
      (if y in previous && previous[y] == e.out then "" else RowText(y, e, RoomOf(width, height, y)))
      + ChangedRows(previous, rows, width, height, y + 1)
  }

  datatype Cursor = Cursor(row: nat, col: nat)

  const SHOW_CURSOR: string := [ESC] + "[?25h"
  const HIDE_CURSOR: string := [ESC] + "[?25l"
  const SYNC_START: string := [ESC] + "[?2026h"
  const SYNC_END: string := [ESC] + "[?2026l"

  function CursorText(cursor: Option<Cursor>): string {
    match cursor
    case Some(c) => MoveSequence(c.row, c.col) + SHOW_CURSOR
    case None => HIDE_CURSOR
  }

  /** What one frame writes, given what the renderer believes is on the screen. */
  function FrameText(previous: map<nat, string>, rows: seq<Line>, width: nat, height: nat, cursor: Option<Cursor>): string
    requires 1 <= width
  {
    SYNC_START + (ChangedRows(previous, rows, width, height, 0) + (CursorText(cursor) + SYNC_END))
  }

  /** What the renderer remembers of a frame's first `y` rows. */
  function Drawn(rows: seq<Line>, width: nat, height: nat, y: nat): map<nat, string>
    requires 1 <= width
  {
    map k: nat | 0 <= k < y :: EncodeRow(rows, width, height, k).out
  }

  // Steps of the loops below.

  function After(out: string, used: nat, rest: Encoded): Encoded {
    Encoded(out + rest.out, used + rest.used)
  }

  lemma AfterTwice(out: string, used: nat, more: string, taken: nat, rest: Encoded)
    ensures After(out, used, After(more, taken, rest)) == After(out + more, used + taken, rest)
    ensures After(out, used, After("", taken, rest)) == After(out, used + taken, rest)
    ensures After(out, used, Encoded(more, taken)) == Encoded(out + more, used + taken)
  {
    assert out + (more + rest.out) == out + more + rest.out && "" + rest.out == rest.out;
  }

  lemma EncodeFrom(line: Line, i: nat, room: nat)
    requires i < |line|
    ensures var taken := TakeCells(line[i].cells, room);
            var rest := Encode(line[i + 1..], room - taken.width);
            Encode(line[i..], room) ==
              if taken.text == "" then After("", taken.width, rest)
              else if taken.width == room then Encoded(Dressed(line[i], taken.text), taken.width)
              else After(Dressed(line[i], taken.text), taken.width, rest)
  {
    assert line[i..][0] == line[i] && line[i..][1..] == line[i + 1..];
    var taken := TakeCells(line[i].cells, room);
    assert "" + Encode(line[i + 1..], room - taken.width).out == Encode(line[i + 1..], room - taken.width).out;
  }

  lemma EncodeNothing(line: Line, room: nat)
    requires line == []
    ensures Encode(line, room) == Encoded("", 0)
  {
  }

  lemma EncodeRowIs(rows: seq<Line>, width: nat, height: nat, y: nat)
    requires 1 <= width
    ensures EncodeRow(rows, width, height, y) == Encode(if y < |rows| then rows[y] else [], RoomOf(width, height, y))
  {
  }

  lemma ChangedFrom(previous: map<nat, string>, rows: seq<Line>, width: nat, height: nat, y: nat, out: string)
    requires 1 <= width && y < height
    ensures var e, rest := EncodeRow(rows, width, height, y), ChangedRows(previous, rows, width, height, y + 1);
            out + ChangedRows(previous, rows, width, height, y) ==
              if y in previous && previous[y] == e.out then out + rest
              else out + MoveSequence(y, 0) + e.out + (if e.used < RoomOf(width, height, y) then ERASE_TO_END else "") + rest
  {
    hide EncodeRow, MoveSequence;
    var e, rest := EncodeRow(rows, width, height, y), ChangedRows(previous, rows, width, height, y + 1);
    var move, erase := MoveSequence(y, 0), if e.used < RoomOf(width, height, y) then ERASE_TO_END else "";
    assert "" + rest == rest;
    assert out + (move + e.out + erase + rest) == out + move + e.out + erase + rest;
  }

  lemma ChangedNothing(previous: map<nat, string>, rows: seq<Line>, width: nat, height: nat)
    requires 1 <= width
    ensures ChangedRows(previous, rows, width, height, height) == ""
  {
  }

  lemma DrawnNext(previous: map<nat, string>, rows: seq<Line>, width: nat, height: nat, y: nat)
    requires 1 <= width
    ensures previous + Drawn(rows, width, height, 0) == previous
    ensures var now, text := previous + Drawn(rows, width, height, y), EncodeRow(rows, width, height, y).out;
            && (y in now <==> y in previous) && (y in now ==> now[y] == previous[y])
            && previous + Drawn(rows, width, height, y + 1) == now[y := text]
            && (y in now && now[y] == text ==> previous + Drawn(rows, width, height, y + 1) == now)
  {
    hide EncodeRow;
    var now, text := previous + Drawn(rows, width, height, y), EncodeRow(rows, width, height, y).out;
    assert previous + Drawn(rows, width, height, y + 1) == now[y := text];
    if y in now && now[y] == text { assert now[y := text] == now; }
  }

  lemma FrameGrouped(changed: string, cursor: string)
    ensures SYNC_START + (changed + cursor) + SYNC_END == SYNC_START + (changed + (cursor + SYNC_END))
  {
    assert changed + cursor + SYNC_END == changed + (cursor + SYNC_END);
  }

  const ALTERNATE_SCREEN: string := [ESC] + "[?1049h"
  const ERASE_SCREEN: string := [ESC] + "[2J"
  const PUSH_TITLE: string := [ESC] + "[22;0t"
  const PASTE_ON: string := [ESC] + "[?2004h"
  const FOCUS_ON: string := [ESC] + "[?1004h"
  const MOUSE_ON: string := [ESC] + "[?1003h" + [ESC] + "[?1006h"

  function ShapeText(shape: char): string { [ESC, '[', shape, ' ', 'q'] }

  function TitleText(title: string): string { [ESC] + "]2;" + title + [BEL] }

  class DifferentialRenderer {
    const titles: bool
    var width: nat
    var height: nat
    var previous: map<nat, string>
    var keepFrame: bool
    var title: string
    var cursorShape: char

    constructor (width: nat, height: nat, keepFrame: bool, titles: bool)
      requires 1 <= width
      ensures this.width == width && this.height == height && previous == map[] && this.keepFrame == keepFrame
      ensures this.titles == titles && title == "" && cursorShape == '0'
    {
      this.width, this.height, previous, this.keepFrame := width, height, map[], keepFrame;
      this.titles, title, cursorShape := titles, "", '0';
    }

    /** Walks the cells until one does not fit. */
    method Take(cells: seq<Cell>, room: nat) returns (text: string, width: nat)
      ensures Taken(text, width) == TakeCells(cells, room)
    {
      text, width := "", 0;
      for i := 0 to |cells|
        invariant width <= room
        invariant var rest := TakeCells(cells[i..], room - width);
                  TakeCells(cells, room) == Taken(text + rest.text, width + rest.width)
      {
        if cells[i].text == "\n" { continue; }
        if width + cells[i].width > room { break; }
        text := text + cells[i].text;
        width := width + cells[i].width;
      }
    }

    method EncodeLine(line: Line, room: nat) returns (out: string, used: nat)
      ensures Encoded(out, used) == Encode(line, room)
    {
      hide Encode, Dressed, TakeCells;
      out, used := "", 0;
      assert line[0..] == line && Encode(line, room) == After(out, used, Encode(line, room));
      for i := 0 to |line|
        invariant used <= room
        invariant Encode(line, room) == After(out, used, Encode(line[i..], room - used))
      {
        EncodeFrom(line, i, room - used);
        var text, taken := Take(line[i].cells, room - used);
        AfterTwice(out, used, Dressed(line[i], text), taken, Encode(line[i + 1..], room - used - taken));
        used := used + taken;
        if text == "" { continue; }
        out := out + Dressed(line[i], text);
        if used >= room { return; }
      }
      EncodeNothing(line[|line|..], room - used);
      assert out + "" == out;
    }

    method Draw(rows: seq<Line>, cursor: Option<Cursor>) returns (written: string)
      requires 1 <= width
      modifies this`previous
      ensures written == FrameText(old(previous), rows, width, height, cursor)
      ensures previous == old(previous) + Drawn(rows, width, height, height)
    {
      hide EncodeRow, MoveSequence, Drawn, ChangedRows;
      var out := "";
      DrawnNext(previous, rows, width, height, 0);
      for y := 0 to height
        invariant ChangedRows(old(previous), rows, width, height, 0) == out + ChangedRows(old(previous), rows, width, height, y)
        invariant previous == old(previous) + Drawn(rows, width, height, y)
      {
        var room := if y == height - 1 then width - 1 else width;
        var text, used := EncodeLine(if y < |rows| then rows[y] else [], room);
        assert Encoded(text, used) == EncodeRow(rows, width, height, y) by { EncodeRowIs(rows, width, height, y); }
        ChangedFrom(old(previous), rows, width, height, y, out);
        DrawnNext(old(previous), rows, width, height, y);
        if !(y in previous && previous[y] == text) {
          out := out + MoveSequence(y, 0) + text + (if used < room then ERASE_TO_END else "");
          previous := previous[y := text];
        }
      }
      ChangedNothing(old(previous), rows, width, height);
      assert out + "" == out;
      FrameGrouped(out, CursorText(cursor));
      out := out + CursorText(cursor);
      written := SYNC_START + out + SYNC_END;
    }

    /** Enters the alternate screen; its frame is kept only the first time, when another process handed it over. */
    method Enter(focus: bool, mouse: bool) returns (written: string)
      modifies this`keepFrame
      ensures written == EnterText(titles, focus, mouse, old(keepFrame)) && !keepFrame
    {
      written := EnterText(titles, focus, mouse, keepFrame);
      keepFrame := false;
    }

    /** Forgets what was drawn, so that the next frame writes every row. */
    method Invalidate()
      modifies this`previous
      ensures previous == map[]
    {
      previous := map[];
    }

    /** The cursor's shape, written only when it changes. */
    method SetCursorShape(shape: char) returns (written: string)
      modifies this`cursorShape
      ensures cursorShape == shape && written == if shape == old(cursorShape) then "" else ShapeText(shape)
    {
      if shape == cursorShape { return ""; }
      cursorShape := shape;
      return ShapeText(shape);
    }

    /** The window title, written when it is on and changes. */
    method SetTitle(clean: string) returns (written: string)
      modifies this`title
      ensures title == if titles then clean else old(title)
      ensures written == if !titles || clean == old(title) then "" else TitleText(clean)
    {
      if !titles || clean == title { return ""; }
      title := clean;
      return TitleText(clean);
    }

    method Resize(width: nat, height: nat) returns (written: string)
      requires 1 <= width
      modifies this`width, this`height, this`previous
      ensures this.width == width && this.height == height && previous == map[] && written == ERASE_SCREEN
    {
      this.width, this.height, previous := width, height, map[];
      written := ERASE_SCREEN;
    }
  }

  function EnterText(titles: bool, focus: bool, mouse: bool, keepFrame: bool): string {
    ALTERNATE_SCREEN + ((if titles then PUSH_TITLE else "") + (HIDE_CURSOR + (PASTE_ON
    + ((if focus then FOCUS_ON else "") + ((if mouse then MOUSE_ON else "") + (if keepFrame then "" else ERASE_SCREEN))))))
  }
}
