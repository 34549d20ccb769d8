/** The state of the terminal receiver and what every escape sequence and character does to it.
    Screen contents are sequences of cells; a cell is the text drawn in it, and "" continues the wide glyph on its left. */
module Terminal {
  import opened Numbers
  import opened Strings

  type Row = seq<string>
  type CellWidth = w: nat | w <= 2

  /** The two questions the receiver asks its host: how many cells a text covers, and whether `prefix` followed by a
      character is still one grapheme. Nothing else about Unicode is assumed. */
  datatype Metrics = Metrics(width: string -> CellWidth, joins: (string, char) -> bool)

  datatype Screen = Screen(
    cols: nat,
    rows: nat,
    grid: seq<Row>,
    styles: seq<Row>,
    style: string,
    x: nat,
    y: nat,
    frames: nat,
    unsupported: seq<string>)

  predicate RowsShaped(rows: seq<Row>, height: nat, width: nat) {
    |rows| == height && forall k :: 0 <= k < |rows| ==> |rows[k]| == width
  }

  /** Both grids are `rows` by `cols`, the cursor is on a row, and its column is at most `cols + 1`: `cols` while a wrap
      is pending, one more after a joined character widened the last cell. */
  predicate Shaped(s: Screen) {
    && 2 <= s.cols && 1 <= s.rows
    && RowsShaped(s.grid, s.rows, s.cols) && RowsShaped(s.styles, s.rows, s.cols)
    && s.y < s.rows && s.x <= s.cols + 1
  }

  lemma CursorRow(s: Screen)
    requires Shaped(s)
    ensures 2 <= s.cols && s.y < |s.grid| == |s.styles| == s.rows && |s.grid[s.y]| == |s.styles[s.y]| == s.cols
  {
  }

  function BlankRow(cols: nat, cell: string): (r: Row)
    ensures |r| == cols && forall k :: 0 <= k < cols ==> r[k] == cell
  {
    seq(cols, _ => cell)
  }

  function BlankRows(rows: nat, cols: nat, cell: string): (r: seq<Row>)
    ensures RowsShaped(r, rows, cols) && forall k :: 0 <= k < rows ==> r[k] == BlankRow(cols, cell)
  {
    seq(rows, _ => BlankRow(cols, cell))
  }

  function Fresh(cols: nat, rows: nat): Screen {
    Screen(cols, rows, BlankRows(rows, cols, " "), BlankRows(rows, cols, ""), "", 0, 0, 0, [])
  }

  lemma FreshShaped(cols: nat, rows: nat)
    requires 2 <= cols && 1 <= rows
    ensures Shaped(Fresh(cols, rows))
  {
  }

  function Cleared(s: Screen): Screen {
    s.(grid := BlankRows(s.rows, s.cols, " "), styles := BlankRows(s.rows, s.cols, ""), x := 0, y := 0)
  }

  function NewLine(s: Screen): (r: Screen)
    requires Shaped(s)
    ensures Shaped(r) && r.(grid := s.grid, styles := s.styles, y := s.y) == s
  {
    if s.y + 1 < s.rows then s.(y := s.y + 1)
    else s.(grid := s.grid[1..] + [BlankRow(s.cols, " ")], styles := s.styles[1..] + [BlankRow(s.cols, "")])
  }

  // ---------------------------------------------------------------------------
  // Control sequences

  /** What a control sequence asks for, once its parameters are read. Rows and columns count from zero. */
  datatype Action =
    | MoveTo(row: nat, col: nat)
    | Up(n: nat) | Down(n: nat) | Right(n: nat) | Left(n: nat)
    | ToColumn(col: nat)
    | EraseScreen
    | EraseLine(mode: nat)
    | ResetStyle
    | AddStyle(body: string)
    | FrameEnd
    | AlternateScreen
    | Ignored
    | Unsupported(name: string)

  /** A parameter part as the host's number conversion reads it, with not-a-number as zero. A CSI body is parameter bytes
      (digits among them) followed by intermediates, so only "digits", an optional "." and spaces can convert. */
  function Number(part: string): nat {
    var t := TrimRight(part, ' ');
    var u := if |t| >= 2 && t[|t| - 1] == '.' then t[..|t| - 1] else t;
    if AllDigits(u) then Value(u) else 0
  }

  function Args(body: string): (args: seq<nat>)
    ensures |args| == |Split(body, ';')|
  {
    var parts := Split(body, ';');
    seq(|parts|, i requires 0 <= i < |parts| => Number(parts[i]))
  }

  function OrOne(n: nat): (r: nat)
    ensures r >= 1
  {
    if n == 0 then 1 else n
  }

  function Interpret(body: string, final: char): Action {
    var args := Args(body);
    var n := OrOne(args[0]);
    if final == 'H' || final == 'f' then MoveTo(n - 1, OrOne(if |args| > 1 then args[1] else 0) - 1)
    else if final == 'J' && args[0] in {2, 3} then EraseScreen
    else if final == 'K' then EraseLine(args[0])
    else if final == 'A' then Up(n)
    else if final == 'B' then Down(n)
    else if final == 'C' then Right(n)
    else if final == 'D' then Left(n)
    else if final == 'G' then ToColumn(n - 1)
    else if final == 'm' then (if body == "" || body == "0" then ResetStyle else AddStyle(body))
    else if final == 't' || final == 'q' then Ignored
    else if (final == 'u' && (body == "?" || ">" <= body || body == "<")) || (final == 'c' && body == "") then Ignored
    else if (final == 'h' || final == 'l') && "?" <= body then
      if body == "?2026" && final == 'l' then FrameEnd
      else if body == "?1049" && final == 'h' then AlternateScreen
      else Ignored
    else Unsupported("CSI " + body + [final])
  }

  /** `row` with cells `start` up to `end` replaced. */
  function Filled(row: Row, cell: string, start: nat, end: nat): (r: Row)
    ensures |r| == |row|
    ensures forall k :: 0 <= k < |row| ==> r[k] == if start <= k < end then cell else row[k]
  {
    seq(|row|, k requires 0 <= k < |row| => if start <= k < end then cell else row[k])
  }

  function EraseStart(mode: nat, x: nat, cols: nat): nat
    requires cols >= 1
  {
    if mode == 1 || mode == 2 then 0 else Min(x, cols - 1)
  }

  function EraseEnd(mode: nat, x: nat, cols: nat): nat {
    if mode == 1 then Min(x + 1, cols) else cols
  }

  function Sgr(body: string): string { [ESC, '['] + body + "m" }

  function AddOnce(names: seq<string>, name: string): seq<string> {
    if name in names then names else names + [name]
  }

  function WithRow(s: Screen, cells: Row, inks: Row, x: nat): (r: Screen)
    requires Shaped(s) && |cells| == s.cols && |inks| == s.cols && x <= s.cols + 1
    ensures Shaped(r)
  {
    s.(grid := s.grid[s.y := cells], styles := s.styles[s.y := inks], x := x)
  }

  function Apply(s: Screen, action: Action): (r: Screen)
    requires Shaped(s)
    ensures Shaped(r) && r.cols == s.cols && r.rows == s.rows
  {
    match action
    case MoveTo(row, col) => s.(y := Min(s.rows - 1, row), x := Min(s.cols - 1, col))
    case Up(n) => s.(y := Max(0, s.y - n))
    case Down(n) => s.(y := Min(s.rows - 1, s.y + n))
    case Right(n) => s.(x := Min(s.cols - 1, s.x + n))
    case Left(n) => s.(x := Max(0, s.x - n))
    case ToColumn(col) => s.(x := Min(s.cols - 1, col))
    case EraseScreen => Cleared(s).(x := s.x, y := s.y)
    case EraseLine(mode) =>
      var start, end := EraseStart(mode, s.x, s.cols), EraseEnd(mode, s.x, s.cols);
      WithRow(s, Filled(s.grid[s.y], " ", start, end), Filled(s.styles[s.y], s.style, start, end), s.x)
    case ResetStyle => s.(style := "")
    case AddStyle(body) => s.(style := s.style + Sgr(body))
    case FrameEnd => s.(frames := s.frames + 1)
    case AlternateScreen => Cleared(s)
    case Ignored => s
    case Unsupported(name) => s.(unsupported := AddOnce(s.unsupported, name))
  }

  // ---------------------------------------------------------------------------
  // Printing

  /** The lead cell of the glyph that covers column `p`: the nearest non-empty cell at or left of it, or column 0. */
  function Lead(cells: Row, p: nat): (q: nat)
    requires p < |cells|
    ensures q <= p
    ensures forall k :: q < k <= p ==> cells[k] == ""
    ensures q == 0 || cells[q] != ""
  {
    if p > 0 && cells[p] == "" then Lead(cells, p - 1) else p
  }

  predicate Printable(c: char) { c >= ' ' && c != DEL }

  /** The glyph left of the cursor and its column; a cursor on column 0 has none. */
  function Before(cells: Row, x: nat): (q: nat)
    requires 0 < x && 0 < |cells|
    ensures q < x && q < |cells|
  {
    Lead(cells, Min(x - 1, |cells| - 1))
  }

  predicate Joins(m: Metrics, cells: Row, x: nat, c: char)
    requires 0 < |cells|
  {
    x > 0 && c as int > 127 && cells[Before(cells, x)] != "" && m.joins(cells[Before(cells, x)], c)
  }

  predicate Wraps(m: Metrics, cells: Row, x: nat, c: char)
    requires 0 < |cells|
  {
    !Joins(m, cells, x, c) && m.width([c]) > 0 && x + m.width([c]) > |cells|
  }

  /** `glyph` at column `p`, followed by the empty cells that continue it. */
  function Placed(cells: Row, p: nat, glyph: string, width: nat): (r: Row)
    requires p < |cells|
    ensures |r| == |cells|
    ensures forall k :: 0 <= k < |cells| ==> r[k] == if k == p then glyph else if p < k < p + width then "" else cells[k]
  {
    seq(|cells|, k requires 0 <= k < |cells| => if k == p then glyph else if p < k < p + width then "" else cells[k])
  }

  /** One row with the cursor column on it. */
  datatype Pen = Pen(cells: Row, inks: Row, x: nat)

  predicate PenShaped(p: Pen) {
    2 <= |p.cells| == |p.inks| && p.x <= |p.cells| + 1
  }

  /** A printable character that does not wrap: it joins the glyph before the cursor, is appended to the cell before it when it
      has no width, or takes cells of its own. */
  function PrintOn(m: Metrics, p: Pen, style: string, c: char): (r: Pen)
    requires PenShaped(p) && !Wraps(m, p.cells, p.x, c)
    ensures PenShaped(r) && |r.cells| == |p.cells|
  {
    var cols := |p.cells|;
    if Joins(m, p.cells, p.x, c) then
      var at := Before(p.cells, p.x);
      var joined := p.cells[at] + [c];
      Pen(Placed(p.cells, at, joined, m.width(joined)), p.inks, at + m.width(joined))
    else if m.width([c]) == 0 then
      if p.x > 0 then
        var at := Min(p.x - 1, cols - 1);
        p.(cells := p.cells[at := p.cells[at] + [c]])
      else p
    else
      Pen(Placed(p.cells, p.x, [c], m.width([c])), p.inks[p.x := style], p.x + m.width([c]))
  }

  function PenOf(s: Screen): (p: Pen)
    requires Shaped(s)
    ensures PenShaped(p)
  {
    Pen(s.grid[s.y], s.styles[s.y], s.x)
  }

  function Print(m: Metrics, s: Screen, c: char): (r: Screen)
    requires Shaped(s)
    ensures Shaped(r) && r.cols == s.cols && r.rows == s.rows
  {
    var line := if Wraps(m, s.grid[s.y], s.x, c) then NewLine(s.(x := 0)) else s;
    var pen := PrintOn(m, PenOf(line), line.style, c);
    WithRow(line, pen.cells, pen.inks, pen.x)
  }

  function Char(m: Metrics, s: Screen, c: char): (r: Screen)
    requires Shaped(s)
    ensures Shaped(r) && r.cols == s.cols && r.rows == s.rows
  {
    if c == '\r' then s.(x := 0)
    else if c == '\n' then NewLine(s)
    else if c == BACKSPACE then s.(x := Max(0, s.x - 1))
    else if Printable(c) then Print(m, s, c)
    else s
  }

  // ---------------------------------------------------------------------------
  // The input as tokens

  /** One unit of input. The control strings (OSC, DCS, APC) are skipped whole. */
  datatype Token = Control(body: string, final: char) | Skipped | Escape(c: char) | Single(c: char)

  datatype Lexeme = Incomplete | Lexeme(token: Token, size: nat)

  predicate Parameter(c: char) { '0' <= c <= '?' }

  predicate Intermediate(c: char) { ' ' <= c <= '/' }

  predicate Final(c: char) { '@' <= c <= '~' }

  function RunOfParameters(p: string, i: nat): (j: nat)
    requires i <= |p|
    ensures i <= j <= |p| && (forall k :: i <= k < j ==> Parameter(p[k])) && (j < |p| ==> !Parameter(p[j]))
    decreases |p| - i
  {
    if i < |p| && Parameter(p[i]) then RunOfParameters(p, i + 1) else i
  }

  function RunOfIntermediates(p: string, i: nat): (j: nat)
    requires i <= |p|
    ensures i <= j <= |p| && (forall k :: i <= k < j ==> Intermediate(p[k])) && (j < |p| ==> !Intermediate(p[j]))
    decreases |p| - i
  {
    if i < |p| && Intermediate(p[i]) then RunOfIntermediates(p, i + 1) else i
  }

  /** A control string that starts before `i` may end at `e`: with BEL, or with ESC and a backslash. */
  predicate StringEndsAt(p: string, i: nat, e: nat) {
    e <= |p| && ((i + 1 <= e && p[e - 1] == BEL) || (i + 2 <= e && p[e - 2] == ESC && p[e - 1] == '\\'))
  }

  /** Where the shortest such string ends. */
  function StringEnd(p: string, i: nat): (r: Option<nat>)
    requires i <= |p|
    ensures r.Some? ==> StringEndsAt(p, i, r.value) && forall e :: i <= e < r.value ==> !StringEndsAt(p, i, e)
    ensures r.None? ==> forall e :: i <= e <= |p| ==> !StringEndsAt(p, i, e)
    decreases |p| - i
  {
    if i == |p| then None
    else if p[i] == BEL then Some(i + 1)
    else if i + 1 < |p| && p[i] == ESC && p[i + 1] == '\\' then Some(i + 2)
    else
      assert forall e :: StringEndsAt(p, i, e) ==> StringEndsAt(p, i + 1, e);
      StringEnd(p, i + 1)
  }

  /** The first token of non-empty input, or `Incomplete` while its end has not arrived. */
  function Next(p: string): (l: Lexeme)
    requires p != []
    ensures l.Lexeme? ==> 0 < l.size <= |p|
  {
    if p[0] != ESC then Lexeme(Single(p[0]), 1)
    else if |p| < 2 then Incomplete
    else if p[1] == '[' then
      var i := RunOfParameters(p, 2);
      var j := RunOfIntermediates(p, i);
      if j < |p| && Final(p[j]) then Lexeme(Control(p[2..j], p[j]), j + 1) else Incomplete
    else if p[1] == ']' || p[1] == 'P' || p[1] == '_' then
      match StringEnd(p, 2)
      case Some(e) => Lexeme(Skipped, e)
      case None => Incomplete
    else Lexeme(Escape(p[1]), 2)
  }

  function Step(m: Metrics, s: Screen, token: Token): (r: Screen)
    requires Shaped(s)
    ensures Shaped(r) && r.cols == s.cols && r.rows == s.rows
  {
    match token
    case Control(body, final) => Apply(s, Interpret(body, final))
    case Skipped => s
    case Escape(c) => s.(unsupported := AddOnce(s.unsupported, "ESC " + [c]))
    case Single(c) => Char(m, s, c)
  }

  /** A screen and the input that still waits for the rest of its escape sequence. */
  datatype Receiver = Receiver(screen: Screen, pending: string)

  predicate Waiting(pending: string) {
    pending == [] || Next(pending).Incomplete?
  }

  /** Takes tokens off the front of `p` until none is complete. */
  function Drain(m: Metrics, s: Screen, p: string): (r: Receiver)
    requires Shaped(s)
    ensures Shaped(r.screen) && r.screen.cols == s.cols && r.screen.rows == s.rows
    ensures Waiting(r.pending) && |r.pending| <= |p| && r.pending == p[|p| - |r.pending|..]
    decreases |p|
  {
    if p == [] then Receiver(s, p)
    else
      match Next(p)
      case Incomplete => Receiver(s, p)
      case Lexeme(token, size) => Drain(m, Step(m, s, token), p[size..])
  }

  lemma DrainOne(m: Metrics, s: Screen, p: string)
    requires Shaped(s)
    ensures p == [] ==> Drain(m, s, p) == Receiver(s, p)
    ensures p != [] && Next(p).Incomplete? ==> Drain(m, s, p) == Receiver(s, p)
    ensures p != [] && Next(p).Lexeme? ==> Drain(m, s, p) == Drain(m, Step(m, s, Next(p).token), p[Next(p).size..])
  {
    hide Step, Next;
  }

  const CAPTURE_LIMIT: nat := 256 * 1024

  /** One read: `None` when the input that waits outgrows the capture limit. */
  function Feed(m: Metrics, r: Receiver, text: string): (fed: Option<Receiver>)
    requires Shaped(r.screen)
    ensures fed.Some? ==> Shaped(fed.value.screen) && Waiting(fed.value.pending)
  {
    if Utf16Length(r.pending + text) > CAPTURE_LIMIT then None else Some(Drain(m, r.screen, r.pending + text))
  }

  function FeedAll(m: Metrics, r: Receiver, chunks: seq<string>): (fed: Option<Receiver>)
    requires Shaped(r.screen)
    ensures fed.Some? ==> Shaped(fed.value.screen)
    decreases |chunks|
  {
    if chunks == [] then Some(r)
    else
      var next := Feed(m, r, chunks[0]);
      if next.None? then None else FeedAll(m, next.value, chunks[1..])
  }

  // ---------------------------------------------------------------------------
  // Printing the screen back

  /** One row of the styled snapshot from column `p` on: every non-empty cell after a reset and its own style. */
  function Ink(cells: Row, inks: Row, p: nat): string
    requires |cells| == |inks| && p <= |cells|
    decreases |cells| - p
  {
    if p == |cells| then []
    else (if cells[p] == "" then [] else Sgr("0") + inks[p] + cells[p]) + Ink(cells, inks, p + 1)
  }

  function AnsiRow(cells: Row, inks: Row): string
    requires |cells| == |inks|
  {
    Ink(cells, inks, 0) + Sgr("0")
  }

  function AnsiRows(s: Screen): (rows: seq<string>)
    requires Shaped(s)
    ensures |rows| == s.rows
  {
    seq(s.rows, k requires 0 <= k < s.rows => AnsiRow(s.grid[k], s.styles[k]))
  }

  function TextRows(s: Screen): (rows: seq<string>)
    requires Shaped(s)
    ensures |rows| == s.rows
  {
    seq(s.rows, k requires 0 <= k < s.rows => Concat(s.grid[k]))
  }

  function Ansi(s: Screen): string
    requires Shaped(s)
  {
    Join(AnsiRows(s), "\n") + "\n"
  }

  function Text(s: Screen): string
    requires Shaped(s)
  {
    Join(TextRows(s), "\n") + "\n"
  }
}
