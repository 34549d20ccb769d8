/** A reference terminal that never discards a line: its lines only grow, its cursor has an absolute row, and a screen is the
    window of the last `rows` lines. The scrolling receiver is shown to be exactly that window after every run. */
module ScrollLog {
  import opened Numbers
  import opened Strings
  import opened Terminal

  datatype Log = Log(
    cols: nat,
    rows: nat,
    lines: seq<Row>,
    inks: seq<Row>,
    style: string,
    x: nat,
    row: nat,
    frames: nat,
    unsupported: seq<string>)

  predicate LogShaped(l: Log) {
    && 2 <= l.cols && 1 <= l.rows <= |l.lines|
    && RowsShaped(l.lines, |l.lines|, l.cols) && RowsShaped(l.inks, |l.lines|, l.cols)
    && Top(l) <= l.row < |l.lines| && l.x <= l.cols + 1
  }

  /** The first line of the window. */
  function Top(l: Log): int { |l.lines| - l.rows }

  function Window(l: Log): (s: Screen)
    requires LogShaped(l)
    ensures Shaped(s)
  {
    Screen(l.cols, l.rows, l.lines[Top(l)..], l.inks[Top(l)..], l.style, l.x, l.row - Top(l), l.frames, l.unsupported)
  }

  function EmptyLog(cols: nat, rows: nat): (l: Log)
    requires 2 <= cols && 1 <= rows
    ensures LogShaped(l) && Window(l) == Fresh(cols, rows)
  {
    Log(cols, rows, BlankRows(rows, cols, " "), BlankRows(rows, cols, ""), "", 0, 0, 0, [])
  }

  /** A line feed moves down, and opens a new line at the bottom instead of discarding the top one. */
  function Advance(l: Log): (r: Log)
    requires LogShaped(l)
    ensures LogShaped(r) && r.(lines := l.lines, inks := l.inks, row := l.row) == l
  {
    if l.row + 1 < |l.lines| then l.(row := l.row + 1)
    else l.(lines := l.lines + [BlankRow(l.cols, " ")], inks := l.inks + [BlankRow(l.cols, "")], row := l.row + 1)
  }

  /** The window blanked, the lines above it kept. */
  function Wiped(l: Log): (r: Log)
    requires LogShaped(l)
    ensures LogShaped(r)
  {
    l.(lines := l.lines[..Top(l)] + BlankRows(l.rows, l.cols, " "), inks := l.inks[..Top(l)] + BlankRows(l.rows, l.cols, ""))
  }

  function WithLine(l: Log, cells: Row, inks: Row, x: nat): (r: Log)
    requires LogShaped(l) && |cells| == |inks| == l.cols && x <= l.cols + 1
    ensures LogShaped(r)
  {
    l.(lines := l.lines[l.row := cells], inks := l.inks[l.row := inks], x := x)
  }

  function LogApply(l: Log, action: Action): (r: Log)
    requires LogShaped(l)
    ensures LogShaped(r)
  {
    match action
    case MoveTo(row, col) => l.(row := Min(|l.lines| - 1, Top(l) + row), x := Min(l.cols - 1, col))
    case Up(n) => l.(row := Max(Top(l), l.row - n))
    case Down(n) => l.(row := Min(|l.lines| - 1, l.row + n))
    case Right(n) => l.(x := Min(l.cols - 1, l.x + n))
    case Left(n) => l.(x := Max(0, l.x - n))
    case ToColumn(col) => l.(x := Min(l.cols - 1, col))
    case EraseScreen => Wiped(l)
    case EraseLine(mode) =>
      var start, end := EraseStart(mode, l.x, l.cols), EraseEnd(mode, l.x, l.cols);
      WithLine(l, Filled(l.lines[l.row], " ", start, end), Filled(l.inks[l.row], l.style, start, end), l.x)
    case ResetStyle => l.(style := "")
    case AddStyle(body) => l.(style := l.style + Sgr(body))
    case FrameEnd => l.(frames := l.frames + 1)
    case AlternateScreen => Wiped(l).(x := 0, row := Top(l))
    case Ignored => l
    case Unsupported(name) => l.(unsupported := AddOnce(l.unsupported, name))
  }

  function LogPrint(m: Metrics, l: Log, c: char): (r: Log)
    requires LogShaped(l)
    ensures LogShaped(r)
  {
    var line := if Wraps(m, l.lines[l.row], l.x, c) then Advance(l.(x := 0)) else l;
    var pen := PrintOn(m, Pen(line.lines[line.row], line.inks[line.row], line.x), line.style, c);
    WithLine(line, pen.cells, pen.inks, pen.x)
  }

  function LogStep(m: Metrics, l: Log, token: Token): (r: Log)
    requires LogShaped(l)
    ensures LogShaped(r)
  {
    match token
    case Control(body, final) => LogApply(l, Interpret(body, final))
    case Skipped => l
    case Escape(c) => l.(unsupported := AddOnce(l.unsupported, "ESC " + [c]))
    case Single(c) =>
      if c == '\r' then l.(x := 0)
      else if c == '\n' then Advance(l)
      else if c == BACKSPACE then l.(x := Max(0, l.x - 1))
      else if Printable(c) then LogPrint(m, l, c)
      else l
  }

  function LogDrain(m: Metrics, l: Log, p: string): (r: Log)
    requires LogShaped(l)
    ensures LogShaped(r)
    decreases |p|
  {
    if p == [] || Next(p).Incomplete? then l
    else LogDrain(m, LogStep(m, l, Next(p).token), p[Next(p).size..])
  }

  /** Every line that has left the window is still there, unchanged. */
  predicate HistoryKept(before: Log, after: Log)
    requires LogShaped(before) && LogShaped(after)
  {
    && Top(before) <= Top(after)
    && before.lines[..Top(before)] <= after.lines && before.inks[..Top(before)] <= after.inks
  }

  lemma HistoryKeptByNoChange(l: Log, r: Log)
    requires LogShaped(l) && LogShaped(r) && r.lines == l.lines && r.inks == l.inks && r.rows == l.rows
    ensures HistoryKept(l, r)
  {
  }

  lemma HistoryKeptTwice(a: Log, b: Log, c: Log)
    requires LogShaped(a) && LogShaped(b) && LogShaped(c) && HistoryKept(a, b) && HistoryKept(b, c)
    ensures HistoryKept(a, c)
  {
    assert a.lines[..Top(a)] == b.lines[..Top(b)][..Top(a)];
    assert a.inks[..Top(a)] == b.inks[..Top(b)][..Top(a)];
  }

  lemma CursorLine(l: Log)
    requires LogShaped(l)
    ensures |l.inks| == |l.lines| && |l.lines[l.row]| == |l.inks[l.row]| == l.cols
    ensures PenOf(Window(l)) == Pen(l.lines[l.row], l.inks[l.row], l.x)
  {
  }

  lemma AdvanceIsNewLine(l: Log)
    requires LogShaped(l)
    ensures Window(Advance(l)) == NewLine(Window(l)) && HistoryKept(l, Advance(l))
  {
    var r, w := Advance(l), Window(l);
    if l.row + 1 == |l.lines| {
      assert r.lines[Top(r)..] == w.grid[1..] + [BlankRow(l.cols, " ")];
      assert r.inks[Top(r)..] == w.styles[1..] + [BlankRow(l.cols, "")];
    }
  }

  lemma WipedIsCleared(l: Log)
    requires LogShaped(l)
    ensures Window(Wiped(l)) == Cleared(Window(l)).(x := l.x, y := l.row - Top(l)) && HistoryKept(l, Wiped(l))
    ensures Window(Wiped(l).(x := 0, row := Top(l))) == Cleared(Window(l))
    ensures HistoryKept(l, Wiped(l).(x := 0, row := Top(l)))
  {
    var r := Wiped(l);
    assert r.lines[Top(r)..] == BlankRows(l.rows, l.cols, " ");
    assert r.inks[Top(r)..] == BlankRows(l.rows, l.cols, "");
  }

  lemma LineIsRow(l: Log, cells: Row, inks: Row, x: nat)
    requires LogShaped(l) && |cells| == |inks| == l.cols && x <= l.cols + 1
    ensures Window(WithLine(l, cells, inks, x)) == WithRow(Window(l), cells, inks, x)
    ensures HistoryKept(l, WithLine(l, cells, inks, x))
  {
    var r := WithLine(l, cells, inks, x);
    assert r.lines[Top(r)..] == Window(l).grid[l.row - Top(l) := cells];
    assert r.inks[Top(r)..] == Window(l).styles[l.row - Top(l) := inks];
  }

  lemma LogApplyIsApply(l: Log, action: Action)
    requires LogShaped(l)
    ensures Window(LogApply(l, action)) == Apply(Window(l), action) && HistoryKept(l, LogApply(l, action))
  {
    hide RowsShaped, Cleared, Wiped, BlankRows, Filled, WithLine, WithRow, HistoryKept;
    if action.EraseLine? {
      CursorLine(l);
      var start, end := EraseStart(action.mode, l.x, l.cols), EraseEnd(action.mode, l.x, l.cols);
      LineIsRow(l, Filled(l.lines[l.row], " ", start, end), Filled(l.inks[l.row], l.style, start, end), l.x);
    } else if action.EraseScreen? || action.AlternateScreen? {
      WipedIsCleared(l);
    } else {
      HistoryKeptByNoChange(l, LogApply(l, action));
    }
  }

  lemma LogPrintIsPrint(m: Metrics, l: Log, c: char)
    requires LogShaped(l)
    ensures Window(LogPrint(m, l, c)) == Print(m, Window(l), c) && HistoryKept(l, LogPrint(m, l, c))
  {
    hide RowsShaped, PrintOn, Advance, NewLine, HistoryKept, Before, WithLine, WithRow;
    var start := l.(x := 0);
    CursorLine(l);
    AdvanceIsNewLine(start);
    var line := if Wraps(m, l.lines[l.row], l.x, c) then Advance(start) else l;
    HistoryKeptByNoChange(l, l);
    CursorLine(line);
    var pen := PrintOn(m, Pen(line.lines[line.row], line.inks[line.row], line.x), line.style, c);
    LineIsRow(line, pen.cells, pen.inks, pen.x);
    HistoryKeptTwice(l, line, LogPrint(m, l, c));
  }

  /** One token moves the window exactly as it moves the screen, and only inside the window. */
  lemma LogStepIsStep(m: Metrics, l: Log, token: Token)
    requires LogShaped(l)
    ensures Window(LogStep(m, l, token)) == Step(m, Window(l), token) && HistoryKept(l, LogStep(m, l, token))
  {
    hide Interpret, Apply, LogApply, LogPrint, Print, NewLine, Advance, RowsShaped;
    match token
    case Control(body, final) => LogApplyIsApply(l, Interpret(body, final));
    case Skipped => HistoryKeptByNoChange(l, l);
    case Escape(c) => HistoryKeptByNoChange(l, LogStep(m, l, token));
    case Single(c) =>
      AdvanceIsNewLine(l);
      LogPrintIsPrint(m, l, c);
      HistoryKeptByNoChange(l, l);
  }

  /** For every input, the screen is the last `rows` lines of the terminal that never discards one, and no line above the
      window is ever changed. */
  lemma {:induction false} ScreenIsWindowOfLog(m: Metrics, l: Log, p: string)
    requires LogShaped(l)
    ensures Drain(m, Window(l), p).screen == Window(LogDrain(m, l, p))
    ensures HistoryKept(l, LogDrain(m, l, p))
    decreases |p|
  {
    hide Step, LogStep, Next, LogShaped, Window, HistoryKept;
    DrainOne(m, Window(l), p);
    HistoryKeptByNoChange(l, l);
    if p != [] && Next(p).Lexeme? {
      var Lexeme(token, size) := Next(p);
      LogStepIsStep(m, l, token);
      ScreenIsWindowOfLog(m, LogStep(m, l, token), p[size..]);
      HistoryKeptTwice(l, LogStep(m, l, token), LogDrain(m, l, p));
    }
  }

  /** A screen that starts empty shows the last `rows` of everything that was ever put on it. */
  lemma FreshScreenIsWindowOfLog(m: Metrics, cols: nat, rows: nat, p: string)
    requires 2 <= cols && 1 <= rows
    ensures Drain(m, Fresh(cols, rows), p).screen == Window(LogDrain(m, EmptyLog(cols, rows), p))
  {
    ScreenIsWindowOfLog(m, EmptyLog(cols, rows), p);
  }
}
