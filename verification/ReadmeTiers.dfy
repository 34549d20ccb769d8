/** The generated tier table between two markers in the README: how it is rendered, and when the check accepts a README. */
module ReadmeTiers {
  import opened Strings

  const START: string := "<!-- tiers:start -->"
  const END: string := "<!-- tiers:end -->"

  datatype Tier = Minimalist | Balanced | Full

  datatype Mode = ByTier | Permit | Kernel

  datatype FeatureSpec = FeatureSpec(caption: string, tier: Tier, mode: Mode, optIn: bool, own: string, doc: string)

  const TIERS: seq<Tier> := [Minimalist, Balanced, Full]

  function Rank(tier: Tier): nat {
    match tier
    case Minimalist => 0
    case Balanced => 1
    case Full => 2
  }

  predicate TierIncludes(tier: Tier, needs: Tier) { Rank(tier) >= Rank(needs) }

  function ReplaceAll(s: string, c: char, with: string): string {
    if s == "" then "" else (if s[0] == c then with else [s[0]]) + ReplaceAll(s[1..], c, with)
  }

  function Cell(value: string): string {
    ReplaceAll(ReplaceAll(ReplaceAll(ReplaceAll(value, '|', "\\|"), '<', "&lt;"), '>', "&gt;"), '\n', " ")
  }

  function State(spec: FeatureSpec, tier: Tier): string {
    if spec.mode.Kernel? then "Kernel"
    else if !TierIncludes(tier, spec.tier) then "—"
    else if spec.mode.Permit? || spec.optIn then "Opt-in"
    else "Included"
  }

  function States(spec: FeatureSpec): seq<string> {
    [State(spec, TIERS[0]), State(spec, TIERS[1]), State(spec, TIERS[2])]
  }

  function Row(id: string, spec: FeatureSpec): string {
    "| " + Link(id, spec) + " | " + Join(States(spec), " | ") + " | " + Cell(spec.own) + " |"
  }

  function Link(id: string, spec: FeatureSpec): string {
    "[" + Cell(spec.caption) + "](" + spec.doc + ") (`" + id + "`)"
  }

  function Rows(ids: seq<string>, specs: string -> FeatureSpec): (rows: seq<string>)
    ensures |rows| == |ids|
  {
    seq(|ids|, i requires 0 <= i < |ids| => Row(ids[i], specs(ids[i])))
  }

  const HEADER: seq<string> := [
    "| Feature | Minimalist" + " | Balanced | Full |" + " Own switch / action |",
    "|---|---|---|---|---|"]

  function TableLines(ids: seq<string>, specs: string -> FeatureSpec): seq<string> {
    [START] + HEADER + Rows(ids, specs) + [END]
  }

  function RenderTierTable(ids: seq<string>, specs: string -> FeatureSpec): string {
    Join(TableLines(ids, specs), "\n")
  }

  /** `t` stands in `s` at `i`. */
  predicate Occurs(s: string, t: string, i: int) {
    0 <= i && i + |t| <= |s| && s[i..i + |t|] == t
  }

  /** Where `t` first stands in `s` at or after `from`, or -1. */
  function IndexOf(s: string, t: string, from: nat): (i: int)
    ensures i == -1 || (from <= i && Occurs(s, t, i) && forall k :: from <= k < i ==> !Occurs(s, t, k))
    ensures i == -1 ==> forall k :: from <= k ==> !Occurs(s, t, k)
    decreases |s| - from
  {
    if from > |s| then -1
    else if Occurs(s, t, from) then from
    else if from == |s| then -1
    else IndexOf(s, t, from + 1)
  }

  /** A slice with the host's clamping of its end; `start` is within the text. */
  function Slice(s: string, start: nat, end: nat): string
    requires start <= |s|
  {
    s[start..if end < start then start else if end > |s| then |s| else end]
  }

  predicate TiersMatch(readme: string, table: string) {
    var start := IndexOf(readme, START, 0);
    var end := IndexOf(readme, END, 0);
    && start >= 0 && end > start
    && IndexOf(readme, START, start + |START|) == -1
    && IndexOf(readme, END, end + |END|) == -1
    && Slice(readme, start, end + |END|) == table
  }

  // ---------------------------------------------------------------------------
  // What the check accepts

  /** `t` stands in `s` at `i` and nowhere else, not even overlapping itself. */
  ghost predicate OnlyAt(s: string, t: string, i: int) {
    Occurs(s, t, i) && forall k :: Occurs(s, t, k) ==> k == i
  }

  predicate Marker(t: string) {
    t != "" && t[0] == '<' && forall k :: 0 < k < |t| ==> t[k] != '<'
  }

  lemma Markers()
    ensures Marker(START) && Marker(END) && |START| == 20 && |END| == 18 && START[11] == 's' && END[11] == 'e'
  {
  }

  lemma OccursChar(s: string, t: string, i: int, d: int)
    requires Occurs(s, t, i) && 0 <= d < |t|
    ensures s[i + d] == t[d]
  {
    assert s[i + d] == s[i..i + |t|][d];
  }

  /** Two markers never overlap. */
  lemma MarkersApart(s: string, t: string, u: string, i: int, j: int)
    requires Marker(t) && Marker(u) && Occurs(s, t, i) && Occurs(s, u, j)
    ensures i < j ==> i + |t| <= j
  {
    if i < j < i + |t| {
      OccursChar(s, t, i, j - i);
      OccursChar(s, u, j, 0);
    }
  }

  lemma Differ(s: string, a: string, b: string, d: int, i: int)
    requires 0 <= d < |a| && d < |b| && a[d] != b[d]
    ensures !(Occurs(s, a, i) && Occurs(s, b, i))
  {
    if Occurs(s, a, i) && Occurs(s, b, i) {
      OccursChar(s, a, i, d);
      OccursChar(s, b, i, d);
    }
  }

  lemma SecondSearch(s: string, t: string)
    requires Marker(t)
    ensures var i := IndexOf(s, t, 0);
            i >= 0 ==> (IndexOf(s, t, i + |t|) == -1 <==> OnlyAt(s, t, i))
    ensures forall k :: OnlyAt(s, t, k) ==> IndexOf(s, t, 0) == k
  {
    var i := IndexOf(s, t, 0);
    if i >= 0 {
      forall k | Occurs(s, t, k) ensures k == i || k >= i + |t| {
        MarkersApart(s, t, t, i, k);
      }
    }
    forall k | OnlyAt(s, t, k) ensures IndexOf(s, t, 0) == k {
      assert Occurs(s, t, k);
    }
  }

  /** The block of a README from one marker to the other, when each stands in it exactly once. */
  ghost predicate Holds(readme: string, table: string, at: int) {
    && |table| >= |START| + |END| && Occurs(readme, table, at)
    && OnlyAt(readme, START, at) && OnlyAt(readme, END, at + |table| - |END|)
  }

  lemma MatchHolds(readme: string, table: string)
    requires TiersMatch(readme, table)
    ensures Holds(readme, table, IndexOf(readme, START, 0))
  {
    Markers();
    SecondSearch(readme, START);
    SecondSearch(readme, END);
    var start, end := IndexOf(readme, START, 0), IndexOf(readme, END, 0);
    MarkersApart(readme, START, END, start, end);
    hide Marker, OnlyAt;
    assert readme[start..start + |table|] == table;
  }

  lemma HoldsMatches(readme: string, table: string, at: int)
    requires Holds(readme, table, at)
    ensures TiersMatch(readme, table)
  {
    Markers();
    SecondSearch(readme, START);
    SecondSearch(readme, END);
    Differ(readme, START, END, 11, at);
    hide Marker;
    var start, end := IndexOf(readme, START, 0), IndexOf(readme, END, 0);
    assert start == at && end == at + |table| - |END|;
    assert Slice(readme, start, end + |END|) == readme[at..at + |table|];
  }

  /** The check accepts exactly the READMEs that hold the table once, with neither marker anywhere else. */
  lemma TiersMatchExactly(readme: string, table: string)
    ensures TiersMatch(readme, table) <==> exists at :: Holds(readme, table, at)
  {
    hide TiersMatch, Holds;
    if TiersMatch(readme, table) { MatchHolds(readme, table); }
    forall at | Holds(readme, table, at) ensures TiersMatch(readme, table) { HoldsMatches(readme, table, at); }
  }

  // ---------------------------------------------------------------------------
  // What the renderer produces

  lemma {:induction false} ReplacedFree(s: string, c: char, with: string, d: char)
    requires d !in with && (d == c || d !in s)
    ensures d !in ReplaceAll(s, c, with)
  {
    if s != "" { ReplacedFree(s[1..], c, with, d); }
  }

  /** No cell holds an angle bracket or a line break. */
  lemma CellIsSafe(value: string)
    ensures '<' !in Cell(value) && '>' !in Cell(value) && '\n' !in Cell(value)
  {
    var a := ReplaceAll(value, '|', "\\|");
    var b := ReplaceAll(a, '<', "&lt;");
    var c := ReplaceAll(b, '>', "&gt;");
    ReplacedFree(a, '<', "&lt;", '<');
    ReplacedFree(b, '>', "&gt;", '<');
    ReplacedFree(b, '>', "&gt;", '>');
    ReplacedFree(c, '\n', " ", '<');
    ReplacedFree(c, '\n', " ", '>');
    ReplacedFree(c, '\n', " ", '\n');
  }

  /** Every column bar follows a backslash. */
  predicate Escaped(r: string) {
    forall k :: 0 <= k < |r| && r[k] == '|' ==> k > 0 && r[k - 1] == '\\'
  }

  lemma EscapedBoth(head: string, rest: string)
    requires Escaped(head) && Escaped(rest)
    ensures Escaped(head + rest)
  {
    var r := head + rest;
    forall k | 0 <= k < |r| && r[k] == '|' ensures k > 0 && r[k - 1] == '\\' {
      if k >= |head| { assert rest[k - |head|] == '|'; }
    }
  }

  lemma {:induction false} BarsEscaped(s: string)
    ensures Escaped(ReplaceAll(s, '|', "\\|"))
  {
    if s != "" {
      BarsEscaped(s[1..]);
      EscapedBoth(if s[0] == '|' then "\\|" else [s[0]], ReplaceAll(s[1..], '|', "\\|"));
    }
  }

  /** Replacing another character by text without bars keeps every bar escaped. */
  lemma {:induction false} StillEscaped(s: string, c: char, with: string)
    requires Escaped(s) && c !in {'|', '\\'} && '|' !in with
    ensures Escaped(ReplaceAll(s, c, with))
    decreases |s|
  {
    if s != "" {
      var front, last := s[..|s| - 1], s[|s| - 1];
      assert Escaped(front);
      StillEscaped(front, c, with);
      ReplaceLast(front, last, c, with);
      assert s == front + [last];
      if last == '|' { ReplaceLast(front[..|front| - 1], front[|front| - 1], c, with); assert front == front[..|front| - 1] + ['\\']; }
    }
  }

  lemma {:induction false} ReplaceLast(front: string, last: char, c: char, with: string)
    ensures ReplaceAll(front + [last], c, with) == ReplaceAll(front, c, with) + (if last == c then with else [last])
  {
    if front == "" {
      assert front + [last] == [last] && [last][1..] == "";
    } else {
      assert (front + [last])[1..] == front[1..] + [last];
      ReplaceLast(front[1..], last, c, with);
    }
  }

  /** Every column bar in a cell is escaped. */
  lemma CellBarsEscaped(value: string)
    ensures Escaped(Cell(value))
  {
    var a := ReplaceAll(value, '|', "\\|");
    BarsEscaped(value);
    StillEscaped(a, '<', "&lt;");
    var b := ReplaceAll(a, '<', "&lt;");
    StillEscaped(b, '>', "&gt;");
    StillEscaped(ReplaceAll(b, '>', "&gt;"), '\n', " ");
  }

  predicate SafeNames(ids: seq<string>, specs: string -> FeatureSpec) {
    forall i :: 0 <= i < |ids| ==> Safe(ids[i]) && Safe(specs(ids[i]).doc)
  }

  predicate Safe(s: string) { '<' !in s && '\n' !in s }

  lemma SafeBoth(a: string, b: string)
    requires Safe(a) && Safe(b)
    ensures Safe(a + b)
  {
  }

  lemma LinkIsSafe(id: string, spec: FeatureSpec)
    requires Safe(id) && Safe(spec.doc)
    ensures Safe(Link(id, spec))
  {
    CellIsSafe(spec.caption);
    hide Cell;
    var a, b := "[" + Cell(spec.caption) + "](", spec.doc + ") (`";
    assert Safe(a) && Safe(b);
    assert Link(id, spec) == a + b + id + "`)";
  }

  lemma StatesAreSafe(spec: FeatureSpec)
    ensures Safe(Join(States(spec), " | "))
  {
    assert Safe("Kernel") && Safe("—") && Safe("Opt-in") && Safe("Included") && Safe(" | ");
    var states := States(spec);
    forall i | 0 <= i < |states| ensures Safe(states[i]) {}
    JoinFree(states, " | ", '<');
    JoinFree(states, " | ", '\n');
  }

  lemma RowIsSafe(id: string, spec: FeatureSpec)
    requires Safe(id) && Safe(spec.doc)
    ensures Safe(Row(id, spec))
  {
    LinkIsSafe(id, spec);
    StatesAreSafe(spec);
    CellIsSafe(spec.own);
    assert Safe("| ") && Safe(" | ") && Safe(" |");
    hide Cell, Link, States, Join, Safe;
    var link, states, own := Link(id, spec), Join(States(spec), " | "), Cell(spec.own);
    SafeBoth("| ", link);
    SafeBoth("| " + link, " | ");
    SafeBoth("| " + link + " | ", states);
    SafeBoth("| " + link + " | " + states, " | ");
    SafeBoth("| " + link + " | " + states + " | ", own);
    SafeBoth("| " + link + " | " + states + " | " + own, " |");
  }

  lemma {:induction false} JoinFree(parts: seq<string>, sep: string, c: char)
    requires c !in sep && forall i :: 0 <= i < |parts| ==> c !in parts[i]
    ensures c !in Join(parts, sep)
  {
    if |parts| > 1 { JoinFree(parts[1..], sep, c); }
  }

  lemma {:induction false} JoinEnds(first: string, middle: seq<string>, last: string, sep: string)
    requires middle != []
    ensures Join([first] + middle + [last], sep) == first + (sep + Join(middle, sep) + sep) + last
  {
    var all := [first] + middle + [last];
    assert all[1..] == middle + [last];
    JoinLast(middle, last, sep);
    assert first + sep + (Join(middle, sep) + sep + last) == first + (sep + Join(middle, sep) + sep) + last;
  }

  lemma {:induction false} JoinLast(parts: seq<string>, last: string, sep: string)
    requires parts != []
    ensures Join(parts + [last], sep) == Join(parts, sep) + sep + last
  {
    assert (parts + [last])[1..] == parts[1..] + [last];
    if |parts| > 1 {
      JoinLast(parts[1..], last, sep);
      var rest := Join(parts[1..], sep);
      assert parts[0] + sep + (rest + sep + last) == parts[0] + sep + rest + sep + last;
    } else {
      assert [last][1..] == [] && Join([last], sep) == last;
    }
  }

  function Middle(ids: seq<string>, specs: string -> FeatureSpec): string {
    "\n" + Join(HEADER + Rows(ids, specs), "\n") + "\n"
  }

  lemma HeaderIsSafe()
    ensures |HEADER| == 2 && Safe(HEADER[0]) && Safe(HEADER[1])
  {
    RuleIsSafe();
    assert Safe("| Feature | Minimalist") && Safe(" | Balanced | Full |") && Safe(" Own switch / action |");
  }

  lemma RuleIsSafe()
    ensures Safe("|---|---|---|---|---|")
  {
  }

  lemma InnerLinesSafe(ids: seq<string>, specs: string -> FeatureSpec)
    requires SafeNames(ids, specs)
    ensures var inner := HEADER + Rows(ids, specs); forall i :: 0 <= i < |inner| ==> Safe(inner[i])
  {
    var inner := HEADER + Rows(ids, specs);
    HeaderIsSafe();
    hide Row, Safe;
    forall i | 0 <= i < |inner| ensures Safe(inner[i]) {
      assert inner[i] == if i < 2 then HEADER[i] else Row(ids[i - 2], specs(ids[i - 2]));
      if i >= 2 { RowIsSafe(ids[i - 2], specs(ids[i - 2])); }
    }
  }

  /** The rendered table is its start marker, text without a single '<', and its end marker; and it is one line for each
      feature between the four fixed ones. */
  lemma RenderedTable(ids: seq<string>, specs: string -> FeatureSpec)
    requires SafeNames(ids, specs)
    ensures RenderTierTable(ids, specs) == START + Middle(ids, specs) + END
    ensures '<' !in Middle(ids, specs)
    ensures Split(RenderTierTable(ids, specs), '\n') == TableLines(ids, specs) && |TableLines(ids, specs)| == |ids| + 4
  {
    InnerLinesSafe(ids, specs);
    BlockOfLines(START, HEADER + Rows(ids, specs), END);
    assert |HEADER| == 2;
    assert [START] + HEADER + Rows(ids, specs) + [END] == [START] + (HEADER + Rows(ids, specs)) + [END];
  }

  lemma BlockOfLines(a: string, inner: seq<string>, b: string)
    requires '\n' !in a && '\n' !in b && inner != [] && forall i :: 0 <= i < |inner| ==> Safe(inner[i])
    ensures var text, middle := Join([a] + inner + [b], "\n"), "\n" + Join(inner, "\n") + "\n";
            text == a + middle + b && '<' !in middle && Split(text, '\n') == [a] + inner + [b]
  {
    hide Join, Split;
    JoinEnds(a, inner, b, "\n");
    LinesFree(inner);
    LinesSplit(a, inner, b);
  }

  lemma LinesSplit(a: string, inner: seq<string>, b: string)
    requires '\n' !in a && '\n' !in b && inner != [] && forall i :: 0 <= i < |inner| ==> Safe(inner[i])
    ensures Split(Join([a] + inner + [b], "\n"), '\n') == [a] + inner + [b]
  {
    hide Join, Split;
    var all := [a] + inner + [b];
    forall i | 0 <= i < |all| ensures '\n' !in all[i] {
      if 0 < i < |all| - 1 { assert all[i] == inner[i - 1]; }
    }
    SplitOfJoin(all, '\n');
  }

  lemma LinesFree(inner: seq<string>)
    requires forall i :: 0 <= i < |inner| ==> Safe(inner[i])
    ensures '<' !in "\n" + Join(inner, "\n") + "\n"
  {
    JoinFree(inner, "\n", '<');
    hide Join;
  }

  /** Neither marker stands in a text. */
  ghost predicate Clean(s: string) {
    forall k :: !Occurs(s, START, k) && !Occurs(s, END, k)
  }

  /** A README around the rendered table passes exactly when neither marker is in the text before it or in the text after it:
      nothing in a label or a switch can make one, and none can straddle an edge of the table. */
  lemma RenderedTableMatches(ids: seq<string>, specs: string -> FeatureSpec, pre: string, post: string)
    requires SafeNames(ids, specs)
    ensures var table := RenderTierTable(ids, specs);
            TiersMatch(pre + table + post, table) <==> Clean(pre) && Clean(post)
  {
    RenderedTable(ids, specs);
    hide RenderTierTable, Middle, TiersMatch;
    BlockMatches(pre, Middle(ids, specs), post);
  }

  lemma BlockEnds(pre: string, a: string, middle: string, b: string, post: string)
    ensures var s := pre + (a + middle + b) + post; Occurs(s, a, |pre|) && Occurs(s, b, |pre| + |a| + |middle|)
  {
    var s, front := pre + (a + middle + b) + post, pre + a + middle;
    assert s == pre + a + (middle + b + post) && s == front + b + post;
    assert (pre + a)[|pre|..] == a && s[..|pre| + |a|] == pre + a;
    assert (front + b)[|front|..] == b && s[..|front| + |b|] == front + b;
    assert s[|pre|..|pre| + |a|] == s[..|pre| + |a|][|pre|..];
    assert s[|front|..|front| + |b|] == s[..|front| + |b|][|front|..];
  }

  lemma SliceOfFirst(a: string, b: string, i: int, j: int)
    requires 0 <= i <= j <= |a|
    ensures (a + b)[i..j] == a[i..j]
  {
  }

  lemma SliceOfSecond(a: string, b: string, i: int, j: int)
    requires 0 <= i <= j <= |b|
    ensures (a + b)[|a| + i..|a| + j] == b[i..j]
  {
  }

  /** Where a marker can stand in a text around a block. */
  lemma MarkerInBlock(pre: string, a: string, middle: string, b: string, post: string, t: string, k: int)
    requires Marker(a) && Marker(b) && Marker(t) && '<' !in middle && Occurs(pre + (a + middle + b) + post, t, k)
    ensures var at, last := |pre|, |pre| + |a| + |middle|;
            Occurs(pre, t, k) || k == at || k == last || Occurs(post, t, k - last - |b|)
  {
    var block := a + middle + b;
    var s := pre + block + post;
    var at, last := |pre|, |pre| + |a| + |middle|;
    OccursChar(s, t, k, 0);
    BlockEnds(pre, a, middle, b, post);
    if at <= k < at + |block| {
      assert s[k] == block[k - at];
    } else if k < at {
      MarkersApart(s, t, a, k, at);
      assert s == pre + (block + post);
      SliceOfFirst(pre, block + post, k, k + |t|);
    } else {
      SliceOfSecond(pre + block, post, k - last - |b|, k - last - |b| + |t|);
    }
  }

  lemma MarkerFromPart(pre: string, block: string, post: string, t: string, k: int)
    ensures Occurs(pre, t, k) ==> Occurs(pre + block + post, t, k)
    ensures Occurs(post, t, k) ==> Occurs(pre + block + post, t, k + |pre| + |block|)
  {
    var s, after := pre + block + post, |pre| + |block|;
    assert s == pre + (block + post);
    if Occurs(pre, t, k) { SliceOfFirst(pre, block + post, k, k + |t|); }
    if Occurs(post, t, k) { SliceOfSecond(pre + block, post, k, k + |t|); }
  }

  /** Around a block, a marker stands only where it opens or closes the block when it is not before or after it. */
  lemma BlockMarker(pre: string, a: string, middle: string, b: string, post: string, t: string, p: int, d: nat)
    requires Marker(a) && Marker(b) && '<' !in middle && d < |a| && d < |b| && a[d] != b[d]
    requires (t == a && p == |pre|) || (t == b && p == |pre| + |a| + |middle|)
    ensures Occurs(pre + (a + middle + b) + post, t, p)
    ensures OnlyAt(pre + (a + middle + b) + post, t, p) <==> forall k :: !Occurs(pre, t, k) && !Occurs(post, t, k)
  {
    var block := a + middle + b;
    var s, at, last := pre + block + post, |pre|, |pre| + |a| + |middle|;
    BlockEnds(pre, a, middle, b, post);
    if forall k :: !Occurs(pre, t, k) && !Occurs(post, t, k) {
      forall k | Occurs(s, t, k) ensures k == p {
        MarkerInBlock(pre, a, middle, b, post, t, k);
        assert !Occurs(pre, t, k) && !Occurs(post, t, k - last - |b|);
        Differ(s, a, b, d, k);
      }
    }
    if OnlyAt(s, t, p) {
      forall k ensures !Occurs(pre, t, k) && !Occurs(post, t, k) {
        MarkerFromPart(pre, block, post, t, k);
      }
    }
  }

  lemma CleanBoth(pre: string, post: string)
    ensures Clean(pre) && Clean(post) <==>
            (forall k :: !Occurs(pre, START, k) && !Occurs(post, START, k)) && (forall k :: !Occurs(pre, END, k) && !Occurs(post, END, k))
  {
    hide Occurs;
  }

  lemma BlockMatches(pre: string, middle: string, post: string)
    requires '<' !in middle
    ensures var table := START + middle + END;
            TiersMatch(pre + table + post, table) <==> Clean(pre) && Clean(post)
  {
    Markers();
    hide TiersMatch, Marker, Clean, OnlyAt;
    var table := START + middle + END;
    var s, at := pre + table + post, |pre|;
    BlockMarker(pre, START, middle, END, post, START, at, 11);
    BlockMarker(pre, START, middle, END, post, END, at + |table| - |END|, 11);
    TiersMatchExactly(s, table);
    assert s[at..at + |table|] == table;
    CleanBoth(pre, post);
    hide Occurs;
    HoldsOnlyThere(s, table, at);
  }

  lemma HoldsOnlyThere(s: string, table: string, at: int)
    requires Occurs(s, START, at) && Occurs(s, table, at) && |table| >= |START| + |END|
    ensures (exists i :: Holds(s, table, i)) <==> OnlyAt(s, START, at) && OnlyAt(s, END, at + |table| - |END|)
  {
    hide Occurs;
    if exists i :: Holds(s, table, i) {
      var i :| Holds(s, table, i);
      assert i == at;
    }
    if OnlyAt(s, START, at) && OnlyAt(s, END, at + |table| - |END|) { assert Holds(s, table, at); }
  }
}
