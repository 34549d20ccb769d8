/** The greedy line wrapper with tab stops: what it writes, that every break was forced, and that no split uses fewer rows. */
module TerminalRows {
  import opened Strings

  /** The wrapper while it fills a row: the rows finished, the row being filled, and the columns it takes. */
  datatype Wrapper = Wrapper(rows: seq<string>, row: string, columns: nat)

  function Spaces(n: nat): (s: string)
    ensures |s| == n && forall k :: 0 <= k < n ==> s[k] == ' '
  {
    seq(n, _ => ' ')
  }

  const START := Wrapper([], "", 0)

  function PutCell(size: char -> nat, width: nat, w: Wrapper, cell: char): Wrapper {
    if w.columns + size(cell) > width then Wrapper(w.rows + [w.row], [cell], size(cell))
    else Wrapper(w.rows, w.row + [cell], w.columns + size(cell))
  }

  function Fill(size: char -> nat, width: nat, w: Wrapper, text: string): Wrapper
    decreases |text|
  {
    if text == "" then w else Fill(size, width, PutCell(size, width, w, text[0]), text[1..])
  }

  /** A tab becomes spaces up to the next multiple of eight, counted from the row it starts in. */
  function Expansion(columns: nat, character: char): string {
    if character == '\t' then Spaces(8 - columns % 8) else [character]
  }

  /** A line with its tabs expanded as the wrapper meets them. */
  function Expanded(size: char -> nat, width: nat, w: Wrapper, line: string): string
    decreases |line|
  {
    if line == "" then ""
    else
      var text := Expansion(w.columns, line[0]);
      text + Expanded(size, width, Fill(size, width, w, text), line[1..])
  }

  function Done(w: Wrapper): seq<string> { w.rows + [w.row] }

  function LineRows(size: char -> nat, width: nat, line: string): seq<string> {
    Done(Fill(size, width, START, Expanded(size, width, START, line)))
  }

  function AllRows(size: char -> nat, width: nat, lines: seq<string>): seq<string> {
    if lines == [] then [] else LineRows(size, width, lines[0]) + AllRows(size, width, lines[1..])
  }

  /** What the host trims from the end of a text. */
  predicate Whitespace(c: char) {
    || '\t' <= c <= '\r' || c == ' ' || c == '\U{A0}' || c == '\U{1680}' || '\U{2000}' <= c <= '\U{200A}'
    || c == '\U{2028}' || c == '\U{2029}' || c == '\U{202F}' || c == '\U{205F}' || c == '\U{3000}' || c == '\U{FEFF}'
  }

  function TrimEnd(s: string): string {
    if s != "" && Whitespace(s[|s| - 1]) then TrimEnd(s[..|s| - 1]) else s
  }

  function Lines(output: string): (lines: seq<string>)
    ensures lines != []
  {
    Split(TrimEnd(output), '\n')
  }

  lemma {:induction false} FillBoth(size: char -> nat, width: nat, w: Wrapper, front: string, back: string)
    ensures Fill(size, width, w, front + back) == Fill(size, width, Fill(size, width, w, front), back)
    decreases |front|
  {
    if front == "" {
      assert front + back == back;
    } else {
      assert (front + back)[1..] == front[1..] + back;
      FillBoth(size, width, PutCell(size, width, w, front[0]), front[1..], back);
    }
  }

  /** The wrapper itself, loop by loop. */
  method TerminalRows(size: char -> nat, output: string, width: nat) returns (rows: seq<string>)
    ensures rows == AllRows(size, width, Lines(output))
  {
    hide Expanded, Fill, Lines, AllRows, LineRows;
    rows := [];
    var lines := Lines(output);
    assert lines[0..] == lines && [] + AllRows(size, width, lines) == AllRows(size, width, lines);
    for i := 0 to |lines|
      invariant AllRows(size, width, lines) == rows + AllRows(size, width, lines[i..])
    {
      var source, start := lines[i], rows;
      var row, columns := "", 0;
      ghost var w := START;
      StartedLine(size, width, source);
      for j := 0 to |source|
        invariant rows == start + w.rows && row == w.row && columns == w.columns
        invariant Fill(size, width, START, Expanded(size, width, START, source))
               == Fill(size, width, w, Expanded(size, width, w, source[j..]))
      {
        var text := if source[j] == '\t' then Spaces(8 - columns % 8) else [source[j]];
        ExpandedStep(size, width, w, source, j);
        ghost var filled := Fill(size, width, w, text);
        for k := 0 to |text|
          invariant rows == start + w.rows && row == w.row && columns == w.columns
          invariant filled == Fill(size, width, w, text[k..])
        {
          FillStep(size, width, w, text, k);
          w := PutCell(size, width, w, text[k]);
          var cells := size(text[k]);
          if columns + cells > width {
            rows := rows + [row];
            row := "";
            columns := 0;
          }
          row := row + [text[k]];
          columns := columns + cells;
        }
        FillNothing(size, width, w, text[|text|..]);
      }
      LineFinished(size, width, w, source[|source|..]);
      rows := rows + [row];
      NextLineRows(size, width, lines, i, w, start);
    }
    NoMoreRows(size, width, lines[|lines|..], rows);
  }

  // Steps of the loops above.

  lemma NextLineRows(size: char -> nat, width: nat, lines: seq<string>, i: nat, w: Wrapper, start: seq<string>)
    requires i < |lines| && w == Fill(size, width, START, Expanded(size, width, START, lines[i]))
    ensures start + AllRows(size, width, lines[i..]) == start + w.rows + [w.row] + AllRows(size, width, lines[i + 1..])
  {
    hide Fill, Expanded;
    assert lines[i..][1..] == lines[i + 1..];
  }

  lemma NoMoreRows(size: char -> nat, width: nat, lines: seq<string>, rows: seq<string>)
    requires lines == []
    ensures rows + AllRows(size, width, lines) == rows
  {
  }

  lemma StartedLine(size: char -> nat, width: nat, line: string)
    ensures Expanded(size, width, START, line) == Expanded(size, width, START, line[0..])
  {
    assert line[0..] == line;
  }

  lemma ExpandedStep(size: char -> nat, width: nat, w: Wrapper, line: string, j: nat)
    requires j < |line|
    ensures var text := Expansion(w.columns, line[j]);
            Fill(size, width, w, Expanded(size, width, w, line[j..])) ==
            Fill(size, width, Fill(size, width, w, text), Expanded(size, width, Fill(size, width, w, text), line[j + 1..]))
  {
    var text := Expansion(w.columns, line[j]);
    assert line[j..][1..] == line[j + 1..];
    FillBoth(size, width, w, text, Expanded(size, width, Fill(size, width, w, text), line[j + 1..]));
  }

  lemma FillStep(size: char -> nat, width: nat, w: Wrapper, text: string, k: nat)
    requires k < |text|
    ensures Fill(size, width, w, text[k..]) == Fill(size, width, PutCell(size, width, w, text[k]), text[k + 1..])
  {
    assert text[k..][1..] == text[k + 1..];
  }

  lemma FillNothing(size: char -> nat, width: nat, w: Wrapper, text: string)
    requires text == ""
    ensures Fill(size, width, w, text) == w
  {
  }

  lemma LineFinished(size: char -> nat, width: nat, w: Wrapper, line: string)
    requires line == ""
    ensures Fill(size, width, w, Expanded(size, width, w, line)) == w
  {
  }

  // ---------------------------------------------------------------------------
  // Soundness

  function WidthOf(size: char -> nat, text: string): nat {
    if text == "" then 0 else WidthOf(size, text[..|text| - 1]) + size(text[|text| - 1])
  }

  lemma {:induction false} WidthOfBoth(size: char -> nat, a: string, b: string)
    ensures WidthOf(size, a + b) == WidthOf(size, a) + WidthOf(size, b)
  {
    if b == "" {
      assert a + b == a;
    } else {
      assert (a + b)[..|a + b| - 1] == a + b[..|b| - 1];
      WidthOfBoth(size, a, b[..|b| - 1]);
    }
  }

  /** The break before row `i` was forced: its first cell did not fit on the row before. */
  predicate Forced(size: char -> nat, width: nat, rows: seq<string>, i: nat)
    requires 0 < i < |rows|
  {
    rows[i] != "" && WidthOf(size, rows[i - 1]) + size(rows[i][0]) > width
  }

  predicate Sound(size: char -> nat, width: nat, w: Wrapper) {
    && w.columns == WidthOf(size, w.row)
    && forall i :: 0 < i < |Done(w)| ==> Forced(size, width, Done(w), i)
  }

  lemma {:induction false} ConcatBoth(a: seq<string>, b: seq<string>)
    ensures Concat(a + b) == Concat(a) + Concat(b)
  {
    if a == [] {
      assert a + b == b;
    } else {
      assert (a + b)[1..] == a[1..] + b;
      ConcatBoth(a[1..], b);
    }
  }

  lemma PutCellKeepsText(size: char -> nat, width: nat, w: Wrapper, cell: char)
    ensures Concat(Done(PutCell(size, width, w, cell))) == Concat(Done(w)) + [cell]
  {
    var r := PutCell(size, width, w, cell);
    ConcatBoth(w.rows, [w.row]);
    ConcatBoth(r.rows, [r.row]);
    ConcatOne(w.row);
    ConcatOne(r.row);
    hide Concat;
    assert Concat(w.rows) + (w.row + [cell]) == Concat(w.rows) + w.row + [cell];
  }

  lemma ConcatOne(part: string)
    ensures Concat([part]) == part
  {
    assert [part][1..] == [];
  }

  lemma PutCellSound(size: char -> nat, width: nat, w: Wrapper, cell: char)
    requires Sound(size, width, w)
    ensures var r := PutCell(size, width, w, cell);
            Sound(size, width, r) && Concat(Done(r)) == Concat(Done(w)) + [cell]
  {
    hide Concat;
    PutCellKeepsText(size, width, w, cell);
    var r := PutCell(size, width, w, cell);
    assert r.row[..|r.row| - 1] == (if w.columns + size(cell) > width then "" else w.row);
    assert WidthOf(size, r.row) == WidthOf(size, r.row[..|r.row| - 1]) + size(cell);
    forall i | 0 < i < |Done(r)| ensures Forced(size, width, Done(r), i) {
      if i < |Done(w)| { assert Forced(size, width, Done(w), i); }
    }
  }

  lemma {:induction false} FillSound(size: char -> nat, width: nat, w: Wrapper, text: string)
    requires Sound(size, width, w)
    ensures var r := Fill(size, width, w, text);
            Sound(size, width, r) && Concat(Done(r)) == Concat(Done(w)) + text
    decreases |text|
  {
    hide Sound, Done, PutCell;
    if text != "" {
      PutCellSound(size, width, w, text[0]);
      FillSound(size, width, PutCell(size, width, w, text[0]), text[1..]);
      assert text == [text[0]] + text[1..];
    } else {
      assert Concat(Done(w)) + text == Concat(Done(w));
    }
  }

  /** `text` is `line` with every tab replaced by one to eight spaces. */
  predicate TabsExpanded(line: string, text: string)
    decreases |line|
  {
    if line == "" then text == ""
    else if line[0] == '\t' then exists n :: 1 <= n <= 8 && n <= |text| && text[..n] == Spaces(n) && TabsExpanded(line[1..], text[n..])
    else text != "" && text[0] == line[0] && TabsExpanded(line[1..], text[1..])
  }

  lemma {:induction false} ExpandedIsTabsExpanded(size: char -> nat, width: nat, w: Wrapper, line: string)
    ensures TabsExpanded(line, Expanded(size, width, w, line))
    ensures '\t' !in line ==> Expanded(size, width, w, line) == line
    decreases |line|
  {
    hide Fill;
    if line != "" {
      var text := Expansion(w.columns, line[0]);
      var rest := Expanded(size, width, Fill(size, width, w, text), line[1..]);
      ExpandedIsTabsExpanded(size, width, Fill(size, width, w, text), line[1..]);
      assert (text + rest)[..|text|] == text && (text + rest)[|text|..] == rest;
    }
  }

  /** A row is as wide as the cells in it: no cell of a fitting row is wider than the row. */
  lemma {:induction false} CellWithinRow(size: char -> nat, row: string, k: nat)
    requires k < |row|
    ensures size(row[k]) <= WidthOf(size, row)
  {
    if k < |row| - 1 { CellWithinRow(size, row[..|row| - 1], k); }
  }

  predicate AllFit(size: char -> nat, width: nat, rows: seq<string>) {
    forall i :: 0 <= i < |rows| ==> WidthOf(size, rows[i]) <= width
  }

  lemma {:induction false} FillFits(size: char -> nat, width: nat, w: Wrapper, text: string)
    requires Sound(size, width, w) && AllFit(size, width, Done(w))
    requires forall k :: 0 <= k < |text| ==> size(text[k]) <= width
    ensures AllFit(size, width, Done(Fill(size, width, w, text)))
    decreases |text|
  {
    if text != "" {
      var r := PutCell(size, width, w, text[0]);
      PutCellSound(size, width, w, text[0]);
      assert Done(w)[|w.rows|] == w.row;
      forall i | 0 <= i < |Done(r)| ensures WidthOf(size, Done(r)[i]) <= width {
        if i < |Done(w)| { assert WidthOf(size, Done(w)[i]) <= width; }
      }
      FillFits(size, width, r, text[1..]);
    }
  }

  lemma {:induction false} FittingPartsFit(size: char -> nat, width: nat, rows: seq<string>)
    requires AllFit(size, width, rows)
    ensures forall k :: 0 <= k < |Concat(rows)| ==> size(Concat(rows)[k]) <= width
  {
    if rows != [] {
      FittingPartsFit(size, width, rows[1..]);
      forall k | 0 <= k < |rows[0]| ensures size(rows[0][k]) <= width {
        CellWithinRow(size, rows[0], k);
      }
    }
  }

  /** One source line: its rows put together are the line with its tabs expanded, every break was forced, and every row fits
      exactly when every cell of it does. */
  lemma LineRowsSound(size: char -> nat, width: nat, line: string)
    ensures var rows := LineRows(size, width, line);
            && TabsExpanded(line, Concat(rows)) && ('\t' !in line ==> Concat(rows) == line)
            && (forall i :: 0 < i < |rows| ==> Forced(size, width, rows, i))
            && (AllFit(size, width, rows) <==> forall k :: 0 <= k < |Concat(rows)| ==> size(Concat(rows)[k]) <= width)
  {
    var text := Expanded(size, width, START, line);
    FillSound(size, width, START, text);
    assert Concat(Done(START)) + text == text;
    ExpandedIsTabsExpanded(size, width, START, line);
    if forall k :: 0 <= k < |text| ==> size(text[k]) <= width { FillFits(size, width, START, text); }
    if AllFit(size, width, LineRows(size, width, line)) { FittingPartsFit(size, width, LineRows(size, width, line)); }
  }

  /** A tab that fits on its row ends on a tab stop. */
  lemma TabReachesStop(size: char -> nat, width: nat, w: Wrapper)
    requires size(' ') == 1 && w.columns + (8 - w.columns % 8) <= width
    ensures var r := Fill(size, width, w, Expansion(w.columns, '\t'));
            r.rows == w.rows && r.columns % 8 == 0 && w.columns < r.columns <= w.columns + 8
  {
    SpacesFill(size, width, w, 8 - w.columns % 8);
  }

  lemma {:induction false} SpacesFill(size: char -> nat, width: nat, w: Wrapper, n: nat)
    requires size(' ') == 1 && w.columns + n <= width
    ensures Fill(size, width, w, Spaces(n)) == Wrapper(w.rows, w.row + Spaces(n), w.columns + n)
    decreases n
  {
    if n == 0 {
      assert w.row + Spaces(n) == w.row;
    } else {
      assert Spaces(n)[1..] == Spaces(n - 1) && w.row + [' '] + Spaces(n - 1) == w.row + Spaces(n);
      SpacesFill(size, width, PutCell(size, width, w, ' '), n - 1);
    }
  }

  // ---------------------------------------------------------------------------
  // Optimality

  /** Against any split of the text still to come into fitting rows: the wrapper needs no more rows when the first of them also
      fits after what is on its row, and at most one more when it does not. */
  lemma {:induction false} FillNeedsNoMore(size: char -> nat, width: nat, w: Wrapper, text: string, split: seq<string>)
    requires split != [] && AllFit(size, width, split) && Concat(split) == text
    ensures var used := |Done(Fill(size, width, w, text))| - |w.rows|;
            && used <= |split| + 1
            && (w.columns + WidthOf(size, split[0]) <= width ==> used <= |split|)
    decreases |text|, |split|
  {
    if text != "" {
      if split[0] == "" {
        assert Concat(split) == Concat(split[1..]);
        FillNeedsNoMore(size, width, w, text, split[1..]);
      } else {
        var c, r := text[0], split[0][1..];
        var w' := PutCell(size, width, w, c);
        assert split[0] == [c] + r && c == split[0][0];
        WidthOfBoth(size, [c], r);
        assert [c][..0] == "";
        assert WidthOf(size, [c]) == size(c);
        var shorter := [r] + split[1..];
        assert shorter[1..] == split[1..] && Concat(shorter) == text[1..];
        FillNeedsNoMore(size, width, w', text[1..], shorter);
      }
    }
  }

  /** No way to split a line, as it reads once its tabs are expanded, into rows that fit uses fewer rows. */
  lemma LineRowsOptimal(size: char -> nat, width: nat, line: string, split: seq<string>)
    requires split != [] && AllFit(size, width, split) && Concat(split) == Concat(LineRows(size, width, line))
    ensures |LineRows(size, width, line)| <= |split|
  {
    var text := Expanded(size, width, START, line);
    FillSound(size, width, START, text);
    assert Concat(Done(START)) + text == text;
    FillNeedsNoMore(size, width, START, text, split);
  }
}
