/** The receiver itself: one object whose fields every read updates in place. Each method is tied to the function of the
    same name in `Terminal`; the theorems about runs are proved on those functions. */
module PtyScreens {
  import opened Numbers
  import opened Strings
  import opened Terminal

  class PtyScreen {
    const m: Metrics
    var cols: nat
    var rows: nat
    var grid: seq<Row>
    var styles: seq<Row>
    var style: string
    var x: nat
    var y: nat
    var pending: string
    var frames: nat
    var unsupported: seq<string>

    ghost predicate Valid()
      reads this
    {
      Shaped(View())
    }

    function View(): Screen
      reads this
    {
      Screen(cols, rows, grid, styles, style, x, y, frames, unsupported)
    }

    constructor (m: Metrics, cols: nat, rows: nat)
      requires 2 <= cols && 1 <= rows
      ensures Valid() && this.m == m
      ensures View() == Fresh(cols, rows) && pending == ""
    {
      this.m, this.cols, this.rows := m, cols, rows;
      grid, styles := BlankRows(rows, cols, " "), BlankRows(rows, cols, "");
      style, x, y, pending, frames, unsupported := "", 0, 0, "", 0, [];
    }

    method Clear()
      modifies this`grid, this`styles, this`x, this`y
      ensures View() == Cleared(old(View()))
    {
      grid := BlankRows(rows, cols, " ");
      styles := BlankRows(rows, cols, "");
      x, y := 0, 0;
    }

    method NewLine()
      requires Valid()
      modifies this`grid, this`styles, this`y
      ensures Valid() && View() == Terminal.NewLine(old(View()))
    {
      y := y + 1;
      if y >= rows {
        grid := grid[1..];
        grid := grid + [BlankRow(cols, " ")];
        styles := styles[1..];
        styles := styles + [BlankRow(cols, "")];
        y := rows - 1;
      }
    }

    method EraseLine(mode: nat)
      requires Valid()
      modifies this`grid, this`styles
      ensures View() == Apply(old(View()), Action.EraseLine(mode))
      ensures Valid()
    {
      hide RowsShaped;
      CursorRow(View());
      var start := if mode == 1 || mode == 2 then 0 else Min(x, cols - 1);
      var end := if mode == 1 then Min(x + 1, cols) else cols;
      grid := grid[y := Filled(grid[y], " ", start, end)];
      styles := styles[y := Filled(styles[y], style, start, end)];
    }

    method Csi(body: string, final: char)
      requires Valid()
      modifies this`grid, this`styles, this`style, this`x, this`y, this`frames, this`unsupported
      ensures View() == Apply(old(View()), Interpret(body, final))
      ensures Valid()
    {
      hide Interpret, RowsShaped, BlankRows, Filled;
      match Interpret(body, final)
      case MoveTo(row, col) =>
        y := Min(rows - 1, row);
        x := Min(cols - 1, col);
      case EraseScreen =>
        var cursorX, cursorY := x, y;
        Clear();
        x := cursorX;
        y := cursorY;
      case EraseLine(mode) =>
        EraseLine(mode);
      case Up(n) => y := Max(0, y - n);
      case Down(n) => y := Min(rows - 1, y + n);
      case Right(n) => x := Min(cols - 1, x + n);
      case Left(n) => x := Max(0, x - n);
      case ToColumn(col) => x := Min(cols - 1, col);
      case ResetStyle => style := "";
      case AddStyle(added) => style := style + Sgr(added);
      case FrameEnd => frames := frames + 1;
      case AlternateScreen => Clear();
      case Ignored =>
      case Unsupported(name) => unsupported := AddOnce(unsupported, name);
    }

    /** Writes `glyph` at column `at` of the cursor's row and empties the cells it continues into. */
    method Place(at: nat, glyph: string, width: nat)
      requires y < |grid| && at < |grid[y]| == cols
      modifies this`grid
      ensures grid == old(grid)[y := Placed(old(grid)[y], at, glyph, width)]
    {
      var row := grid[y][at := glyph];
      var i := 1;
      while i < width && at + i < cols
        invariant 1 <= i <= Max(1, width)
        invariant row == Placed(grid[y], at, glyph, i)
      {
        row := row[at + i := ""];
        i := i + 1;
      }
      assert row == Placed(grid[y], at, glyph, width) by {
        assert forall k :: 0 <= k < |row| ==> row[k] == Placed(grid[y], at, glyph, width)[k];
      }
      grid := grid[y := row];
    }

    /** The column of the glyph left of the cursor, or -1. */
    method FindLead() returns (previous: int)
      requires Valid()
      ensures previous == if x == 0 then -1 else Before(grid[y], x)
    {
      previous := Min(x - 1, cols - 1);
      while previous > 0 && grid[y][previous] == ""
        invariant if x == 0 then previous == -1 else 0 <= previous <= Min(x - 1, cols - 1)
        invariant x > 0 ==> Before(grid[y], x) == Lead(grid[y], previous)
      {
        previous := previous - 1;
      }
    }

    /** A character with cells of its own, after a wrap when they do not fit. */
    method Put(c: char)
      requires Valid() && !Joins(m, grid[y], x, c) && m.width([c]) > 0
      modifies this`grid, this`styles, this`x, this`y
      ensures View() == Terminal.Print(m, old(View()), c)
      ensures Valid()
    {
      hide Terminal.NewLine, RowsShaped, Before, BlankRows, Lead;
      CursorRow(View());
      var width := m.width([c]);
      if x + width > cols {
        x := 0;
        NewLine();
        CursorRow(View());
      }
      styles := styles[y := styles[y][x := style]];
      Place(x, [c], width);
      x := x + width;
    }

    /** The printable branch of `feed`. */
    method Print(c: char)
      requires Valid()
      modifies this`grid, this`styles, this`x, this`y
      ensures View() == Terminal.Print(m, old(View()), c)
      ensures Valid()
    {
      hide Terminal.NewLine, RowsShaped, Before, BlankRows, Lead;
      CursorRow(View());
      var previous := FindLead();
      var prefix := if previous >= 0 then grid[y][previous] else "";
      assert styles[y := styles[y]] == styles && grid[y := grid[y]] == grid;
      if c as int > 127 && prefix != "" && m.joins(prefix, c) {
        var joined := prefix + [c];
        Place(previous, joined, m.width(joined));
        x := previous + m.width(joined);
      } else if m.width([c]) == 0 {
        if x > 0 {
          var at := Min(x - 1, cols - 1);
          grid := grid[y := grid[y][at := grid[y][at] + [c]]];
        }
      } else {
        Put(c);
      }
    }

    /** One turn of the loop in `Feed`: takes the first token of the input, or reports that it is not complete. */
    method Take() returns (taken: bool)
      requires Valid() && pending != ""
      modifies this`grid, this`styles, this`style, this`x, this`y, this`pending, this`frames, this`unsupported
      ensures Valid()
      ensures taken == Next(old(pending)).Lexeme?
      ensures taken ==> View() == Step(m, old(View()), Next(old(pending)).token)
      ensures pending == if taken then old(pending)[Next(old(pending)).size..] else old(pending)
      ensures !taken ==> View() == old(View())
    {
      hide Interpret, Apply, Terminal.NewLine, Terminal.Print;
      if pending[0] == ESC {
        if |pending| < 2 { return false; }
        if pending[1] == '[' {
          var i := RunOfParameters(pending, 2);
          var j := RunOfIntermediates(pending, i);
          if !(j < |pending| && Final(pending[j])) { return false; }
          Csi(pending[2..j], pending[j]);
          pending := pending[j + 1..];
        } else if pending[1] == ']' || pending[1] == 'P' || pending[1] == '_' {
          var end := StringEnd(pending, 2);
          if end.None? { return false; }
          pending := pending[end.value..];
        } else {
          unsupported := AddOnce(unsupported, "ESC " + [pending[1]]);
          pending := pending[2..];
        }
        return true;
      }
      var c := pending[0];
      pending := pending[1..];
      if c == '\r' {
        x := 0;
      } else if c == '\n' {
        NewLine();
      } else if c == BACKSPACE {
        x := Max(0, x - 1);
      } else if Printable(c) {
        Print(c);
      }
      return true;
    }

    /** Reads `text` after what was pending. False when the host's error for the capture limit is raised: the text stays pending. */
    method Feed(text: string) returns (ok: bool)
      requires Valid()
      modifies this`grid, this`styles, this`style, this`x, this`y, this`pending, this`frames, this`unsupported
      ensures Valid()
      ensures var fed := Terminal.Feed(m, Receiver(old(View()), old(pending)), text);
              ok == fed.Some? && (ok ==> Receiver(View(), pending) == fed.value)
      ensures !ok ==> View() == old(View()) && pending == old(pending) + text
    {
      hide Drain, Step, Utf16Length, Next;
      pending := pending + text;
      ghost var input := pending;
      if Utf16Length(pending) > CAPTURE_LIMIT { return false; }
      while pending != ""
        invariant Valid()
        invariant Drain(m, View(), pending) == Drain(m, old(View()), input)
        decreases |pending|
      {
        DrainOne(m, View(), pending);
        var taken := Take();
        if !taken { return true; }
      }
      DrainOne(m, View(), pending);
      return true;
    }

    method Resize(width: nat, height: nat)
      requires 2 <= width && 1 <= height
      modifies this`cols, this`rows, this`grid, this`styles, this`x, this`y
      ensures Valid()
      ensures View() == Fresh(width, height).(style := style, frames := frames, unsupported := unsupported)
    {
      cols := width;
      rows := height;
      Clear();
    }

    /** The screen as plain text. */
    function Text(): (text: string)
      requires Valid()
      reads this
      ensures text == Terminal.Text(View())
    {
      var cells := grid;
      var lines := seq(|cells|, k requires 0 <= k < |cells| => Concat(cells[k]));
      assert lines == TextRows(View());
      Join(lines, "\n") + "\n"
    }

    /** The screen with its styles, whatever differential updates made it. */
    function Ansi(): (text: string)
      requires Valid()
      reads this
      ensures text == Terminal.Ansi(View())
    {
      var cells, inks := grid, styles;
      var lines := seq(|cells|, k requires 0 <= k < |cells| == |inks| && |cells[k]| == |inks[k]| => AnsiRow(cells[k], inks[k]));
      assert lines == AnsiRows(View());
      Join(lines, "\n") + "\n"
    }
  }
}
