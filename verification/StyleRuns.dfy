/** A styled row as runs of equal style, the canonical form the screenshots are drawn from. */
module StyleRuns {
  import opened Strings

  datatype Cell = Cell(text: string, width: nat)

  datatype Span = Span(
    cells: seq<Cell>,
    fg: Option<string>, fgHex: Option<string>,
    bg: Option<string>, bgHex: Option<string>,
    bold: bool, dim: bool, italic: bool, underline: bool, strike: bool)

  datatype Style = Style(fg: string, bg: Option<string>, bold: bool, dim: bool, italic: bool, underline: bool, strike: bool)

  datatype Run = Run(col: nat, width: nat, text: string, style: Style)

  datatype StyledCell = StyledCell(cell: Cell, style: Style)

  // ---------------------------------------------------------------------------
  // Colours

  function LowerChar(c: char): char {
    if 'A' <= c <= 'Z' then (c as int + 32) as char else c
  }

  /** Lower case of ASCII text, as colours are. */
  function Lower(s: string): (r: string)
    ensures |r| == |s|
  {
    seq(|s|, i requires 0 <= i < |s| => LowerChar(s[i]))
  }

  predicate HexDigit(c: char) { '0' <= c <= '9' || 'a' <= c <= 'f' || 'A' <= c <= 'F' }

  predicate ShortHex(s: string) {
    |s| == 4 && s[0] == '#' && HexDigit(s[1]) && HexDigit(s[2]) && HexDigit(s[3])
  }

  function HexOf(color: Option<string>): Option<string> {
    if color.None? || color.value == "" then None
    else
      var s := color.value;
      Some(Lower(if ShortHex(s) then ['#', s[1], s[1], s[2], s[2], s[3], s[3]] else s))
  }

  function Lookup(colors: map<string, string>, name: string): Option<string> {
    if name in colors then Some(colors[name]) else None
  }

  function Either(a: Option<string>, b: Option<string>): Option<string> { if a.Some? then a else b }

  /** The style a span resolves to under a theme. */
  function Resolve(colors: map<string, string>, span: Span): Style {
    var name := if span.fg.Some? then span.fg.value else "text";
    var fg := Either(HexOf(span.fgHex), HexOf(Lookup(colors, name)));
    var role := if span.bg.Some? && span.bg.value != "" then HexOf(Lookup(colors, span.bg.value)) else None;
    Style(if fg.Some? then fg.value else "#ffffff", Either(HexOf(span.bgHex), role),
          span.bold, span.dim, span.italic, span.underline, span.strike)
  }

  // ---------------------------------------------------------------------------
  // Runs

  function StyledCells(cells: seq<Cell>, style: Style): (r: seq<StyledCell>)
    ensures |r| == |cells|
  {
    seq(|cells|, i requires 0 <= i < |cells| => StyledCell(cells[i], style))
  }

  function Flatten(colors: map<string, string>, line: seq<Span>): seq<StyledCell> {
    if line == [] then [] else StyledCells(line[0].cells, Resolve(colors, line[0])) + Flatten(colors, line[1..])
  }

  function Width(cells: seq<StyledCell>): nat {
    if cells == [] then 0 else Width(cells[..|cells| - 1]) + cells[|cells| - 1].cell.width
  }

  function AddCell(runs: seq<Run>, col: nat, c: StyledCell): seq<Run> {
    var n := |runs|;
    if n > 0 && runs[n - 1].col + runs[n - 1].width == col && runs[n - 1].style == c.style then
      runs[n - 1 := runs[n - 1].(text := runs[n - 1].text + c.cell.text, width := runs[n - 1].width + c.cell.width)]
    else runs + [Run(col, c.cell.width, c.cell.text, c.style)]
  }

  function Runs(cells: seq<StyledCell>): seq<Run> {
    if cells == [] then [] else AddCell(Runs(cells[..|cells| - 1]), Width(cells[..|cells| - 1]), cells[|cells| - 1])
  }

  /** A row's spans as runs of equal style, grown cell by cell. */
  method RunsOf(colors: map<string, string>, line: seq<Span>) returns (runs: seq<Run>)
    ensures runs == Runs(Flatten(colors, line))
  {
    hide Runs, Width, Resolve, AddCell, Flatten;
    runs := [];
    var col := 0;
    ghost var done: seq<StyledCell> := [];
    RunsOfNothing();
    FlattenNothing(colors, line);
    for i := 0 to |line|
      invariant runs == Runs(done) && col == Width(done)
      invariant Flatten(colors, line) == done + Flatten(colors, line[i..])
    {
      var span := line[i];
      var style := Resolve(colors, span);
      ghost var before, added := done, StyledCells(span.cells, style);
      for j := 0 to |span.cells|
        invariant runs == Runs(done) && col == Width(done)
        invariant done == before + added[..j]
      {
        var cell := span.cells[j];
        RunsOfMore(done, added[j]);
        runs := AddCell(runs, col, StyledCell(cell, style));
        col := col + cell.width;
        done := done + [added[j]];
      }
      FlattenStep(colors, line, i, before);
      assert added[..|span.cells|] == added;
    }
    FlattenNothing(colors, line);
  }

  lemma RunsOfNothing()
    ensures Runs([]) == [] && Width([]) == 0
  {
  }

  lemma RunsOfMore(cells: seq<StyledCell>, c: StyledCell)
    ensures Runs(cells + [c]) == AddCell(Runs(cells), Width(cells), c) && Width(cells + [c]) == Width(cells) + c.cell.width
  {
    assert (cells + [c])[..|cells|] == cells;
  }

  lemma FlattenNothing(colors: map<string, string>, line: seq<Span>)
    ensures Flatten(colors, line) == [] + Flatten(colors, line[0..])
    ensures forall done: seq<StyledCell> :: done + Flatten(colors, line[|line|..]) == done
  {
    assert line[0..] == line && line[|line|..] == [];
    assert [] + Flatten(colors, line) == Flatten(colors, line);
  }

  lemma FlattenStep(colors: map<string, string>, line: seq<Span>, i: nat, before: seq<StyledCell>)
    requires i < |line|
    ensures before + Flatten(colors, line[i..])
         == before + StyledCells(line[i].cells, Resolve(colors, line[i])) + Flatten(colors, line[i + 1..])
  {
    assert line[i..][0] == line[i] && line[i..][1..] == line[i + 1..];
    var added, rest := StyledCells(line[i].cells, Resolve(colors, line[i])), Flatten(colors, line[i + 1..]);
    assert before + (added + rest) == before + added + rest;
  }

  // ---------------------------------------------------------------------------
  // Groups: cells of one style side by side

  type Group = seq<StyledCell>

  predicate Uniform(g: Group) {
    g != [] && forall i :: 0 <= i < |g| ==> g[i].style == g[0].style
  }

  predicate Apart(g: Group, h: Group) {
    g != [] && h != [] && g[0].style != h[0].style
  }

  /** `groups` cuts `cells` wherever the style changes, and nowhere else. */
  predicate Cut(groups: seq<Group>, cells: seq<StyledCell>)
    decreases |groups|
  {
    if groups == [] then cells == []
    else
      var n, g := |groups| - 1, groups[|groups| - 1];
      && Uniform(g) && |g| <= |cells| && cells[|cells| - |g|..] == g
      && Cut(groups[..n], cells[..|cells| - |g|])
      && (n > 0 ==> Apart(groups[n - 1], g))
  }

  function TextOf(g: Group): string {
    if g == [] then "" else TextOf(g[..|g| - 1]) + g[|g| - 1].cell.text
  }

  /** Every run tells where its group starts, how wide it is, its text and its style. */
  predicate Describe(runs: seq<Run>, groups: seq<Group>, cells: seq<StyledCell>)
    requires Cut(groups, cells)
    decreases |groups|
  {
    && |runs| == |groups|
    && (groups != [] ==>
        var n, g := |groups| - 1, groups[|groups| - 1];
        var front := cells[..|cells| - |g|];
        && runs[n] == Run(Width(front), Width(g), TextOf(g), g[0].style)
        && Describe(runs[..n], groups[..n], front))
  }

  /** The groups of a row, by the rule the runs are made. */
  function Groups(cells: seq<StyledCell>): seq<Group> {
    if cells == [] then []
    else AddToGroups(Groups(cells[..|cells| - 1]), cells[|cells| - 1])
  }

  function AddToGroups(groups: seq<Group>, c: StyledCell): seq<Group> {
    var n := |groups|;
    if n > 0 && groups[n - 1] != [] && groups[n - 1][0].style == c.style then groups[..n - 1] + [groups[n - 1] + [c]]
    else groups + [[c]]
  }

  lemma LastGroup(groups: seq<Group>, g: Group)
    ensures (groups + [g])[..|groups|] == groups && (groups + [g])[|groups|] == g
  {
  }

  lemma AddToGroupsCuts(groups: seq<Group>, cells: seq<StyledCell>, c: StyledCell)
    requires Cut(groups, cells)
    ensures Cut(AddToGroups(groups, c), cells + [c])
  {
    var n, all := |groups|, cells + [c];
    if n > 0 && groups[n - 1][0].style == c.style {
      var g := groups[n - 1] + [c];
      LastGroup(groups[..n - 1], g);
      assert all[|all| - |g|..] == g && all[..|all| - |g|] == cells[..|cells| - |groups[n - 1]|];
    } else {
      LastGroup(groups, [c]);
      assert all[|all| - 1..] == [c] && all[..|all| - 1] == cells;
    }
  }

  lemma {:induction false} GroupsCut(cells: seq<StyledCell>)
    ensures Cut(Groups(cells), cells)
  {
    hide Cut, AddToGroups;
    if cells == [] {
      CutNothing();
    } else {
      var front := cells[..|cells| - 1];
      GroupsCut(front);
      AddToGroupsCuts(Groups(front), front, cells[|cells| - 1]);
      assert cells == front + [cells[|cells| - 1]];
    }
  }

  lemma CutNothing()
    ensures Cut([], [])
  {
  }

  lemma {:induction false} WidthBoth(a: seq<StyledCell>, b: seq<StyledCell>)
    ensures Width(a + b) == Width(a) + Width(b)
  {
    if b == [] {
      assert a + b == a;
    } else {
      assert (a + b)[..|a + b| - 1] == a + b[..|b| - 1];
      WidthBoth(a, b[..|b| - 1]);
    }
  }

  lemma {:induction false} TextBoth(a: seq<StyledCell>, b: seq<StyledCell>)
    ensures TextOf(a + b) == TextOf(a) + TextOf(b)
  {
    if b == [] {
      assert a + b == a;
    } else {
      assert (a + b)[..|a + b| - 1] == a + b[..|b| - 1];
      TextBoth(a, b[..|b| - 1]);
    }
  }

  lemma Halves(cells: seq<StyledCell>, k: nat)
    requires k <= |cells|
    ensures cells == cells[..k] + cells[k..]
  {
  }

  /** The cells before the last group, and the last group. */
  lemma CutLast(groups: seq<Group>, cells: seq<StyledCell>)
    requires Cut(groups, cells) && groups != []
    ensures |groups[|groups| - 1]| <= |cells| && Uniform(groups[|groups| - 1])
    ensures cells == cells[..|cells| - |groups[|groups| - 1]|] + groups[|groups| - 1]
    ensures Cut(groups[..|groups| - 1], cells[..|cells| - |groups[|groups| - 1]|])
    ensures |groups| > 1 ==> Apart(groups[|groups| - 2], groups[|groups| - 1])
  {
    hide Uniform, Apart;
    Halves(cells, |cells| - |groups[|groups| - 1]|);
  }

  lemma CutLastSizes(groups: seq<Group>, cells: seq<StyledCell>)
    requires Cut(groups, cells) && groups != []
    ensures var g := groups[|groups| - 1];
            var front := cells[..|cells| - |g|];
            Width(cells) == Width(front) + Width(g) && TextOf(cells) == TextOf(front) + TextOf(g)
  {
    CutLast(groups, cells);
    var g := groups[|groups| - 1];
    hide Cut, Width, TextOf;
    WidthBoth(cells[..|cells| - |g|], g);
    TextBoth(cells[..|cells| - |g|], g);
  }

  lemma MoreOfGroup(g: Group, c: StyledCell)
    ensures TextOf(g + [c]) == TextOf(g) + c.cell.text && Width(g + [c]) == Width(g) + c.cell.width
    ensures TextOf([c]) == c.cell.text && Width([c]) == c.cell.width
  {
    assert (g + [c])[..|g|] == g && [c][..0] == [];
  }

  /** The run of the last group, and the runs before it. */
  lemma DescribedLast(runs: seq<Run>, groups: seq<Group>, cells: seq<StyledCell>)
    requires Cut(groups, cells) && Describe(runs, groups, cells) && groups != []
    ensures |runs| == |groups| && groups[|groups| - 1] != []
    ensures var n, g := |groups| - 1, groups[|groups| - 1];
            var front := cells[..|cells| - |g|];
            && Cut(groups[..n], front) && Describe(runs[..n], groups[..n], front)
            && runs[n] == Run(Width(front), Width(g), TextOf(g), g[0].style)
  {
  }

  lemma DescribedMore(runs: seq<Run>, groups: seq<Group>, front: seq<StyledCell>, g: Group)
    requires g != [] && Cut(groups, front) && Describe(runs, groups, front) && Cut(groups + [g], front + g)
    ensures Describe(runs + [Run(Width(front), Width(g), TextOf(g), g[0].style)], groups + [g], front + g)
  {
    var all, r := front + g, runs + [Run(Width(front), Width(g), TextOf(g), g[0].style)];
    hide Cut, Width, TextOf;
    LastGroup(groups, g);
    assert all[..|all| - |g|] == front && r[..|groups|] == runs;
  }

  lemma SameStyleDescribes(runs: seq<Run>, groups: seq<Group>, cells: seq<StyledCell>, c: StyledCell)
    requires Cut(groups, cells) && Describe(runs, groups, cells) && Cut(AddToGroups(groups, c), cells + [c])
    requires groups != [] && groups[|groups| - 1] != [] && groups[|groups| - 1][0].style == c.style
    ensures Describe(AddCell(runs, Width(cells), c), AddToGroups(groups, c), cells + [c])
  {
    hide Cut, Describe, Width, TextOf;
    var n := |groups| - 1;
    var g := groups[n];
    CutLast(groups, cells);
    var front := cells[..|cells| - |g|];
    DescribedLast(runs, groups, cells);
    CutLastSizes(groups, cells);
    MoreOfGroup(g, c);
    assert cells + [c] == front + (g + [c]);
    DescribedMore(runs[..n], groups[..n], front, g + [c]);
    assert AddCell(runs, Width(cells), c) == runs[..n] + [Run(Width(front), Width(g + [c]), TextOf(g + [c]), c.style)];
  }

  lemma DescribedLength(runs: seq<Run>, groups: seq<Group>, cells: seq<StyledCell>)
    requires Cut(groups, cells) && Describe(runs, groups, cells)
    ensures |runs| == |groups|
  {
  }

  lemma NewStyleDescribes(runs: seq<Run>, groups: seq<Group>, cells: seq<StyledCell>, c: StyledCell)
    requires Cut(groups, cells) && Describe(runs, groups, cells) && Cut(AddToGroups(groups, c), cells + [c])
    requires groups != [] ==> groups[|groups| - 1] != [] && groups[|groups| - 1][0].style != c.style
    ensures Describe(AddCell(runs, Width(cells), c), AddToGroups(groups, c), cells + [c])
  {
    hide Cut, Describe, Width, TextOf;
    DescribedLength(runs, groups, cells);
    if groups != [] {
      CutLast(groups, cells);
      DescribedLast(runs, groups, cells);
    }
    MoreOfGroup([], c);
    assert AddToGroups(groups, c) == groups + [[c]];
    assert AddCell(runs, Width(cells), c) == runs + [Run(Width(cells), Width([c]), TextOf([c]), c.style)];
    DescribedMore(runs, groups, cells, [c]);
  }

  lemma AddCellDescribes(runs: seq<Run>, groups: seq<Group>, cells: seq<StyledCell>, c: StyledCell)
    requires Cut(groups, cells) && Describe(runs, groups, cells) && Cut(AddToGroups(groups, c), cells + [c])
    ensures Describe(AddCell(runs, Width(cells), c), AddToGroups(groups, c), cells + [c])
  {
    if groups != [] { CutLast(groups, cells); }
    hide Describe, AddCell, AddToGroups, Cut, Width;
    if groups != [] && groups[|groups| - 1][0].style == c.style {
      SameStyleDescribes(runs, groups, cells, c);
    } else {
      NewStyleDescribes(runs, groups, cells, c);
    }
  }

  lemma NothingDescribed()
    ensures Cut([], []) && Describe([], [], []) && Runs([]) == [] && Groups([]) == []
  {
  }

  lemma GroupsOfMore(cells: seq<StyledCell>, c: StyledCell)
    ensures Groups(cells + [c]) == AddToGroups(Groups(cells), c)
  {
    assert (cells + [c])[..|cells|] == cells;
  }

  lemma {:induction false} RunsDescribe(cells: seq<StyledCell>)
    ensures Cut(Groups(cells), cells) && Describe(Runs(cells), Groups(cells), cells)
  {
    hide Cut, Describe, AddCell, AddToGroups, Width, Runs, Groups;
    GroupsCut(cells);
    if cells == [] {
      NothingDescribed();
    } else {
      var front, c := cells[..|cells| - 1], cells[|cells| - 1];
      assert cells == front + [c];
      RunsDescribe(front);
      RunsOfMore(front, c);
      GroupsOfMore(front, c);
      AddCellDescribes(Runs(front), Groups(front), front, c);
    }
  }

  // ---------------------------------------------------------------------------
  // The canonical form

  lemma LastStyle(groups: seq<Group>, cells: seq<StyledCell>)
    requires Cut(groups, cells)
    ensures groups == [] <==> cells == []
    ensures groups != [] ==> groups[|groups| - 1] != [] && cells[|cells| - 1].style == groups[|groups| - 1][0].style
  {
    if groups != [] {
      var g := groups[|groups| - 1];
      assert cells[|cells| - 1] == g[|g| - 1];
    }
  }

  lemma Seam(front: seq<StyledCell>, g: Group)
    requires Uniform(g) && (front != [] ==> front[|front| - 1].style != g[0].style)
    ensures var cells, k := front + g, |front|;
            && (k > 0 ==> cells[k - 1].style != cells[k].style)
            && forall i :: k <= i < |cells| ==> cells[i].style == cells[|cells| - 1].style
  {
    assert (front + g)[|front|] == g[0];
    assert forall i :: |front| <= i < |front + g| ==> (front + g)[i] == g[i - |front|];
  }

  /** The cells before the last group end in another style than the group's. */
  lemma StyleBeforeLast(groups: seq<Group>, cells: seq<StyledCell>)
    requires Cut(groups, cells) && groups != []
    ensures var g := groups[|groups| - 1];
            var k := |cells| - |g|;
            g != [] && k >= 0 && (k > 0 ==> cells[k - 1].style != cells[k].style)
    ensures forall i :: |cells| - |groups[|groups| - 1]| <= i < |cells| ==> cells[i].style == cells[|cells| - 1].style
  {
    CutLast(groups, cells);
    var n, g := |groups| - 1, groups[|groups| - 1];
    var before, front := groups[..n], cells[..|cells| - |g|];
    assert g != [] && (n > 0 ==> before[n - 1] == groups[n - 1] && before[n - 1][0].style != g[0].style);
    hide Cut, Uniform, Apart;
    LastStyle(before, front);
    Seam(front, g);
  }

  /** Were the last group of one cut longer, it would run over a change of style in the other. */
  lemma LastGroupLength(a: seq<Group>, b: seq<Group>, cells: seq<StyledCell>)
    requires Cut(a, cells) && Cut(b, cells) && a != [] && b != []
    ensures |a[|a| - 1]| <= |b[|b| - 1]|
  {
    hide Cut;
    StyleBeforeLast(a, cells);
    StyleBeforeLast(b, cells);
  }

  /** There is one way to cut a row where its style changes. */
  lemma {:induction false} CutIsUnique(a: seq<Group>, b: seq<Group>, cells: seq<StyledCell>)
    requires Cut(a, cells) && Cut(b, cells)
    ensures a == b
    decreases |a|
  {
    if a != [] && b != [] {
      LastGroupLength(a, b, cells);
      LastGroupLength(b, a, cells);
      var x := a[|a| - 1];
      CutIsUnique(a[..|a| - 1], b[..|b| - 1], cells[..|cells| - |x|]);
      assert a == a[..|a| - 1] + [x] && b == b[..|b| - 1] + [x];
    }
  }

  lemma {:induction false} DescriptionIsUnique(r: seq<Run>, t: seq<Run>, groups: seq<Group>, cells: seq<StyledCell>)
    requires Cut(groups, cells) && Describe(r, groups, cells) && Describe(t, groups, cells)
    ensures r == t
    decreases |groups|
  {
    if groups != [] {
      var n, g := |groups| - 1, groups[|groups| - 1];
      DescriptionIsUnique(r[..n], t[..n], groups[..n], cells[..|cells| - |g|]);
      assert r == r[..n] + [r[n]] && t == t[..n] + [t[n]];
    }
  }

  /** Any runs that describe the row cut exactly where its style changes are the runs of the row. */
  lemma RunsAreCanonical(runs: seq<Run>, groups: seq<Group>, cells: seq<StyledCell>)
    requires Cut(groups, cells) && Describe(runs, groups, cells)
    ensures runs == Runs(cells)
  {
    RunsDescribe(cells);
    CutIsUnique(groups, Groups(cells), cells);
    DescriptionIsUnique(runs, Runs(cells), groups, cells);
  }

  function RunTexts(runs: seq<Run>): seq<string> {
    seq(|runs|, i requires 0 <= i < |runs| => runs[i].text)
  }

  /** Run `i` starts where the one before it ends, in another style. */
  predicate Follows(runs: seq<Run>, i: nat)
    requires 0 < i < |runs|
  {
    runs[i].col == runs[i - 1].col + runs[i - 1].width && runs[i].style != runs[i - 1].style
  }

  predicate Tiled(runs: seq<Run>, width: nat) {
    && (if runs == [] then width == 0 else runs[0].col == 0 && runs[|runs| - 1].col + runs[|runs| - 1].width == width)
    && forall i :: 0 < i < |runs| ==> Follows(runs, i)
  }

  lemma {:induction false} ConcatLast(parts: seq<string>, last: string)
    ensures Concat(parts + [last]) == Concat(parts) + last
  {
    if parts == [] {
      assert parts + [last] == [last] && [last][1..] == [];
    } else {
      assert (parts + [last])[1..] == parts[1..] + [last];
      ConcatLast(parts[1..], last);
    }
  }

  lemma {:induction false} DescribedTile(runs: seq<Run>, groups: seq<Group>, cells: seq<StyledCell>)
    requires Cut(groups, cells) && Describe(runs, groups, cells)
    ensures Tiled(runs, Width(cells))
    decreases |groups|
  {
    if groups != [] {
      var n, g := |groups| - 1, groups[|groups| - 1];
      var front := cells[..|cells| - |g|];
      CutLastSizes(groups, cells);
      DescribedTile(runs[..n], groups[..n], front);
      forall i | 0 < i < |runs| ensures Follows(runs, i) {
        if i < n { assert Follows(runs[..n], i); }
      }
    }
  }

  lemma {:induction false} DescribedText(runs: seq<Run>, groups: seq<Group>, cells: seq<StyledCell>)
    requires Cut(groups, cells) && Describe(runs, groups, cells)
    ensures Concat(RunTexts(runs)) == TextOf(cells)
    decreases |groups|
  {
    if groups != [] {
      var n, g := |groups| - 1, groups[|groups| - 1];
      CutLastSizes(groups, cells);
      DescribedText(runs[..n], groups[..n], cells[..|cells| - |g|]);
      assert RunTexts(runs) == RunTexts(runs[..n]) + [runs[n].text];
      ConcatLast(RunTexts(runs[..n]), runs[n].text);
    }
  }

  /** Runs lie side by side from column zero to the row's width, adjacent ones differ in style, and together they are the text
      of the row. */
  lemma RunsTile(cells: seq<StyledCell>)
    ensures Tiled(Runs(cells), Width(cells)) && Concat(RunTexts(Runs(cells))) == TextOf(cells)
  {
    RunsDescribe(cells);
    DescribedTile(Runs(cells), Groups(cells), cells);
    DescribedText(Runs(cells), Groups(cells), cells);
  }

  lemma {:induction false} DescribedStyle(
      runs: seq<Run>, groups: seq<Group>, cells: seq<StyledCell>, k: nat, column: nat) returns (i: nat)
    requires Cut(groups, cells) && Describe(runs, groups, cells)
    requires k < |cells| && Width(cells[..k]) <= column < Width(cells[..k]) + cells[k].cell.width
    ensures i < |runs| && runs[i].col <= column < runs[i].col + runs[i].width && runs[i].style == cells[k].style
    decreases |groups|
  {
    hide Cut, Describe, Width, TextOf, Uniform;
    LastStyle(groups, cells);
    CutLast(groups, cells);
    DescribedLast(runs, groups, cells);
    DescribedLength(runs, groups, cells);
    var n, g := |groups| - 1, groups[|groups| - 1];
    var front := cells[..|cells| - |g|];
    StyleBeforeLast(groups, cells);
    if k < |front| {
      assert front[..k] == cells[..k];
      i := DescribedStyle(runs[..n], groups[..n], front, k, column);
    } else {
      i := n;
      CellInGroup(front, g, k - |front|);
      assert cells[..k] == front + g[..k - |front|];
    }
  }

  lemma CellInGroup(front: seq<StyledCell>, g: Group, j: nat)
    requires j < |g|
    ensures Width(front + g[..j]) >= Width(front)
    ensures Width(front + g[..j]) + g[j].cell.width <= Width(front) + Width(g)
  {
    WidthBoth(front, g[..j]);
    WidthBoth(g[..j + 1], g[j + 1..]);
    assert g == g[..j + 1] + g[j + 1..] && g[..j + 1][..j] == g[..j];
  }

  /** The run over any column of a cell has the cell's resolved style. */
  lemma CellStyleKept(cells: seq<StyledCell>, k: nat, column: nat) returns (i: nat)
    requires k < |cells| && Width(cells[..k]) <= column < Width(cells[..k]) + cells[k].cell.width
    ensures i < |Runs(cells)|
    ensures var r := Runs(cells)[i]; r.col <= column < r.col + r.width && r.style == cells[k].style
  {
    RunsDescribe(cells);
    i := DescribedStyle(Runs(cells), Groups(cells), cells, k, column);
  }

  /** However a row is split into spans, the same styled cells give the same runs; so do equal colours spelled differently. */
  lemma SplitDoesNotMatter(colors: map<string, string>, span: Span, k: nat, front: seq<Span>, back: seq<Span>)
    requires k <= |span.cells|
    ensures Runs(Flatten(colors, front + [span] + back))
         == Runs(Flatten(colors, front + [span.(cells := span.cells[..k]), span.(cells := span.cells[k..])] + back))
  {
    hide Runs, Resolve;
    var a, b := span.(cells := span.cells[..k]), span.(cells := span.cells[k..]);
    assert Resolve(colors, a) == Resolve(colors, span) == Resolve(colors, b) by { SameResolve(colors, span, a); SameResolve(colors, span, b); }
    FlattenBoth(colors, front + [span], back);
    FlattenBoth(colors, front, [span]);
    FlattenBoth(colors, front + [a, b], back);
    FlattenBoth(colors, front, [a, b]);
    var style := Resolve(colors, span);
    assert [span][1..] == [] && [a, b][1..] == [b] && [b][1..] == [];
    assert StyledCells(span.cells, style) == StyledCells(a.cells, style) + StyledCells(b.cells, style);
    assert Flatten(colors, [span]) == Flatten(colors, [a, b]);
  }

  lemma SameResolve(colors: map<string, string>, s: Span, t: Span)
    requires s.(cells := []) == t.(cells := [])
    ensures Resolve(colors, s) == Resolve(colors, t)
  {
    assert s == t.(cells := s.cells);
  }

  lemma {:induction false} FlattenBoth(colors: map<string, string>, a: seq<Span>, b: seq<Span>)
    ensures Flatten(colors, a + b) == Flatten(colors, a) + Flatten(colors, b)
  {
    if a == [] {
      assert a + b == b;
    } else {
      assert (a + b)[1..] == a[1..] + b;
      FlattenBoth(colors, a[1..], b);
    }
  }
}
