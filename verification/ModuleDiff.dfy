/** Chunk sizes loaded at start, compared between two builds: what one side has more of, as multisets of sizes. */
module ModuleDiff {
  import opened Strings

  datatype Module = Module(name: string, size: nat)

  datatype Diff = Diff(
    baseCount: nat, candCount: nat,
    baseBytes: nat, candBytes: nat,
    addedChunkSizes: seq<nat>, removedChunkSizes: seq<nat>)

  /** The sizes of a list, empty modules left out. */
  function Sizes(list: seq<Module>): multiset<nat> {
    if list == [] then multiset{}
    else Sizes(list[..|list| - 1]) + (if list[|list| - 1].size != 0 then multiset{list[|list| - 1].size} else multiset{})
  }

  function Bytes(list: seq<Module>): nat {
    if list == [] then 0 else Bytes(list[..|list| - 1]) + list[|list| - 1].size
  }

  function Sum(sizes: seq<nat>): nat {
    if sizes == [] then 0 else sizes[0] + Sum(sizes[1..])
  }

  predicate Descending(s: seq<nat>) {
    forall i, j :: 0 <= i < j < |s| ==> s[i] >= s[j]
  }

  /** A map from size to count stands for the multiset with those counts. */
  predicate Counts(m: map<nat, nat>, s: multiset<nat>) {
    && (forall k :: k in m ==> s[k] == m[k] > 0)
    && (forall k :: k in s ==> k in m)
  }

  method CountSizes(list: seq<Module>) returns (m: map<nat, nat>)
    ensures Counts(m, Sizes(list))
  {
    m := map[];
    assert list[..0] == [];
    for i := 0 to |list|
      invariant Counts(m, Sizes(list[..i]))
    {
      assert list[..i + 1][..i] == list[..i];
      var size := list[i].size;
      if size != 0 {
        m := m[size := (if size in m then m[size] else 0) + 1];
      }
    }
    assert list[..|list|] == list;
  }

  function Repeat(n: nat, size: nat): seq<nat> { seq(n, _ => size) }

  lemma {:induction false} RepeatCounts(n: nat, size: nat)
    ensures multiset(Repeat(n, size)) == multiset{}[size := n]
  {
    if n > 0 {
      assert Repeat(n, size) == Repeat(n - 1, size) + [size];
      RepeatCounts(n - 1, size);
    } else {
      assert Repeat(n, size) == [];
    }
  }

  /** `x` put in its place in a descending list. */
  method Insert(sorted: seq<nat>, x: nat) returns (r: seq<nat>)
    requires Descending(sorted)
    ensures Descending(r) && multiset(r) == multiset(sorted) + multiset{x}
  {
    var i := 0;
    while i < |sorted| && sorted[i] > x
      invariant 0 <= i <= |sorted| && forall k :: 0 <= k < i ==> sorted[k] > x
    {
      i := i + 1;
    }
    r := sorted[..i] + [x] + sorted[i..];
    Inserted(sorted, x, i);
  }

  lemma Inserted(sorted: seq<nat>, x: nat, i: nat)
    requires Descending(sorted) && i <= |sorted| && (i < |sorted| ==> sorted[i] <= x) && forall k :: 0 <= k < i ==> sorted[k] > x
    ensures var r := sorted[..i] + [x] + sorted[i..]; Descending(r) && multiset(r) == multiset(sorted) + multiset{x}
  {
    hide Descending;
    var a, b := sorted[..i], sorted[i..];
    assert sorted == a + b;
    DescendingParts(sorted, i);
    if b != [] { DescendingFrom(b, x); }
    assert forall k :: 0 <= k < |a| ==> a[k] == sorted[k];
    DescendingAround(a, x, b);
  }

  lemma DescendingParts(s: seq<nat>, i: nat)
    requires Descending(s) && i <= |s|
    ensures Descending(s[..i]) && Descending(s[i..])
  {
  }

  lemma DescendingFrom(s: seq<nat>, x: nat)
    requires Descending(s) && s != [] && s[0] <= x
    ensures forall k :: 0 <= k < |s| ==> s[k] <= x
  {
  }

  lemma DescendingAround(a: seq<nat>, x: nat, b: seq<nat>)
    requires Descending(a) && Descending(b)
    requires (forall k :: 0 <= k < |a| ==> a[k] > x) && forall k :: 0 <= k < |b| ==> b[k] <= x
    ensures Descending(a + [x] + b)
  {
    var r := a + [x] + b;
    assert r[|a|] == x && forall k :: 0 <= k < |b| ==> r[|a| + 1 + k] == b[k];
    assert forall k :: 0 <= k < |a| ==> r[k] == a[k];
  }

  /** The host's numeric sort, largest first. */
  method SortDescending(s: seq<nat>) returns (r: seq<nat>)
    ensures Descending(r) && multiset(r) == multiset(s)
  {
    r := [];
    for i := 0 to |s|
      invariant Descending(r) && multiset(r) == multiset(s[..i])
    {
      assert s[..i + 1] == s[..i] + [s[i]];
      r := Insert(r, s[i]);
    }
    assert s[..|s|] == s;
  }

  /** The sizes one side has more often than the other, as often as it has more. */
  method Unmatched(a: map<nat, nat>, b: map<nat, nat>, ghost x: multiset<nat>, ghost y: multiset<nat>) returns (r: seq<nat>)
    requires Counts(a, x) && Counts(b, y)
    ensures Descending(r) && multiset(r) == x - y
  {
    var left, all := a.Keys, [];
    while left != {}
      invariant left <= a.Keys
      invariant forall k :: multiset(all)[k] == if k in left then 0 else (x - y)[k]
      decreases |left|
    {
      var size :| size in left;
      var n := a[size];
      var other := if size in b then b[size] else 0;
      assert y[size] == other;
      var more := if n > other then n - other else 0;
      RepeatCounts(more, size);
      all := all + Repeat(more, size);
      left := left - {size};
    }
    r := SortDescending(all);
  }

  /** The difference of two module lists; nothing when either is missing or empty. */
  method ModuleDiff(base: Option<seq<Module>>, cand: Option<seq<Module>>) returns (diff: Option<Diff>)
    ensures diff.Some? <==> base.Some? && base.value != [] && cand.Some? && cand.value != []
    ensures diff.Some? ==> IsDiff(base.value, cand.value, diff.value)
  {
    if base.None? || base.value == [] || cand.None? || cand.value == [] { return None; }
    var a := CountSizes(base.value);
    var b := CountSizes(cand.value);
    var added := Unmatched(b, a, Sizes(cand.value), Sizes(base.value));
    var removed := Unmatched(a, b, Sizes(base.value), Sizes(cand.value));
    var baseBytes := TotalBytes(base.value);
    var candBytes := TotalBytes(cand.value);
    return Some(Diff(|base.value|, |cand.value|, baseBytes, candBytes, added, removed));
  }

  method TotalBytes(list: seq<Module>) returns (bytes: nat)
    ensures bytes == Bytes(list)
  {
    bytes := 0;
    for i := 0 to |list|
      invariant bytes == Bytes(list[..i])
    {
      assert list[..i + 1][..i] == list[..i];
      bytes := bytes + list[i].size;
    }
    assert list[..|list|] == list;
  }

  predicate IsDiff(base: seq<Module>, cand: seq<Module>, d: Diff) {
    && d.baseCount == |base| && d.candCount == |cand| && d.baseBytes == Bytes(base) && d.candBytes == Bytes(cand)
    && Descending(d.addedChunkSizes) && multiset(d.addedChunkSizes) == Sizes(cand) - Sizes(base)
    && Descending(d.removedChunkSizes) && multiset(d.removedChunkSizes) == Sizes(base) - Sizes(cand)
  }

  // ---------------------------------------------------------------------------
  // Conservation

  lemma {:induction false} SumWithout(s: seq<nat>, k: nat)
    requires k < |s|
    ensures Sum(s) == Sum(s[..k] + s[k + 1..]) + s[k]
  {
    var rest := s[..k] + s[k + 1..];
    if k == 0 {
      assert rest == s[1..];
    } else {
      assert rest[1..] == s[1..][..k - 1] + s[1..][k..] && rest[0] == s[0];
      SumWithout(s[1..], k - 1);
    }
  }

  /** A sum depends on the sizes only, not on their order. */
  lemma {:induction false} SumOfMultiset(s: seq<nat>, t: seq<nat>)
    requires multiset(s) == multiset(t)
    ensures Sum(s) == Sum(t)
    decreases |s|
  {
    assert |multiset(s)| == |s| && |multiset(t)| == |t|;
    if s != [] {
      assert s[0] in multiset(t);
      var k :| 0 <= k < |t| && t[k] == s[0];
      WithoutOneOfBoth(s, 0, t, k);
      assert s[..0] + s[1..] == s[1..];
      SumOfMultiset(s[1..], t[..k] + t[k + 1..]);
      SumWithout(t, k);
    }
  }

  lemma {:induction false} SumBoth(s: seq<nat>, t: seq<nat>)
    ensures Sum(s + t) == Sum(s) + Sum(t)
  {
    if s == [] {
      assert s + t == t;
    } else {
      assert (s + t)[1..] == s[1..] + t;
      SumBoth(s[1..], t);
    }
  }

  /** The sizes of a list in the list's order, empty modules left out. */
  function SizesInOrder(list: seq<Module>): seq<nat> {
    if list == [] then []
    else SizesInOrder(list[..|list| - 1]) + (if list[|list| - 1].size != 0 then [list[|list| - 1].size] else [])
  }

  lemma {:induction false} SizesSumToBytes(list: seq<Module>)
    ensures multiset(SizesInOrder(list)) == Sizes(list) && Sum(SizesInOrder(list)) == Bytes(list)
  {
    if list != [] {
      var last := list[|list| - 1].size;
      SizesSumToBytes(list[..|list| - 1]);
      SumBoth(SizesInOrder(list[..|list| - 1]), if last != 0 then [last] else []);
    }
  }

  lemma DiffBalances(base: seq<Module>, cand: seq<Module>, d: Diff)
    requires IsDiff(base, cand, d)
    ensures Sizes(base) + multiset(d.addedChunkSizes) == Sizes(cand) + multiset(d.removedChunkSizes)
    ensures forall size :: size in d.addedChunkSizes ==> size !in d.removedChunkSizes && size > 0
  {
    hide Sizes;
    NoZeroSizes(cand);
    forall size | size in d.addedChunkSizes ensures size !in d.removedChunkSizes && size > 0 {
      assert size in multiset(d.addedChunkSizes);
      assert size in d.removedChunkSizes ==> size in multiset(d.removedChunkSizes);
    }
  }

  /** Nothing is lost or invented: base with what was added is cand with what was removed, no size is both, and the bytes
      differ by exactly what the two lists say. */
  lemma DiffConserves(base: seq<Module>, cand: seq<Module>, d: Diff)
    requires IsDiff(base, cand, d)
    ensures Sizes(base) + multiset(d.addedChunkSizes) == Sizes(cand) + multiset(d.removedChunkSizes)
    ensures forall size :: size in d.addedChunkSizes ==> size !in d.removedChunkSizes && size > 0
    ensures d.candBytes - d.baseBytes == Sum(d.addedChunkSizes) - Sum(d.removedChunkSizes)
  {
    DiffBalances(base, cand, d);
    hide Sizes, SizesInOrder, Sum;
    var a, b := SizesInOrder(base), SizesInOrder(cand);
    SizesSumToBytes(base);
    SizesSumToBytes(cand);
    SumBoth(a, d.addedChunkSizes);
    SumBoth(b, d.removedChunkSizes);
    SumOfMultiset(a + d.addedChunkSizes, b + d.removedChunkSizes);
  }

  lemma {:induction false} NoZeroSizes(list: seq<Module>)
    ensures 0 !in Sizes(list)
  {
    if list != [] { NoZeroSizes(list[..|list| - 1]); }
  }

  lemma {:induction false} DescendingIsUnique(s: seq<nat>, t: seq<nat>)
    requires Descending(s) && Descending(t) && multiset(s) == multiset(t)
    ensures s == t
    decreases |s|
  {
    SameSize(s, t);
    if s != [] {
      LargestFirst(s, t);
      SameTails(s, t);
      DescendingIsUnique(s[1..], t[1..]);
    }
  }

  lemma LargestFirst(s: seq<nat>, t: seq<nat>)
    requires Descending(s) && Descending(t) && multiset(s) == multiset(t) && s != [] && t != []
    ensures s[0] == t[0]
  {
    assert s[0] in multiset(t) && t[0] in multiset(s);
  }

  /** Swapping the sides swaps what was added and what was removed, list for list. */
  lemma DiffSwaps(base: seq<Module>, cand: seq<Module>, d: Diff, e: Diff)
    requires IsDiff(base, cand, d) && IsDiff(cand, base, e)
    ensures e.addedChunkSizes == d.removedChunkSizes && e.removedChunkSizes == d.addedChunkSizes
  {
    DescendingIsUnique(e.addedChunkSizes, d.removedChunkSizes);
    DescendingIsUnique(e.removedChunkSizes, d.addedChunkSizes);
  }
}
