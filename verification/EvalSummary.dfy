/** The evaluation summary: results arrive in whatever order the workers finish, and are sorted by the position of their case
    and their run. The sorted list does not depend on the schedule. */
module EvalSummary {
  import opened Strings
  import opened WorkerPool

  datatype Job = Job(id: string, run: nat)

  datatype CaseResult<T> = CaseResult(id: string, run: nat, detail: T)

  /** Every chosen case once a run, run after run. */
  function Jobs(chosen: seq<string>, runs: nat): seq<Job> {
    if runs == 0 then []
    else Jobs(chosen, runs - 1) + seq(|chosen|, k requires 0 <= k < |chosen| => Job(chosen[k], runs - 1))
  }

  /** Where the host first finds `id`, or -1. */
  function FindIndex(pool: seq<string>, id: string): (i: int)
    ensures -1 <= i < |pool|
    ensures i >= 0 ==> pool[i] == id && forall k :: 0 <= k < i ==> pool[k] != id
    ensures i == -1 ==> id !in pool
  {
    if pool == [] then -1
    else if pool[0] == id then 0
    else
      var rest := FindIndex(pool[1..], id);
      if rest == -1 then -1 else rest + 1
  }

  /** The order of the final sort: by case position, then by run. */
  predicate NotAfter<T>(pool: seq<string>, a: CaseResult<T>, b: CaseResult<T>) {
    var i, j := FindIndex(pool, a.id), FindIndex(pool, b.id);
    i < j || (i == j && a.run <= b.run)
  }

  predicate Sorted<T>(pool: seq<string>, s: seq<CaseResult<T>>) {
    forall i, j :: 0 <= i < j < |s| ==> NotAfter(pool, s[i], s[j])
  }

  /** What a sort may answer: the same results, in order. Ties are left open. */
  predicate SortOf<T(==)>(pool: seq<string>, results: seq<CaseResult<T>>, s: seq<CaseResult<T>>) {
    multiset(s) == multiset(results) && Sorted(pool, s)
  }

  /** No two different results tie. */
  predicate NoTies<T(==)>(pool: seq<string>, s: seq<CaseResult<T>>) {
    forall a, b :: a in s && b in s && NotAfter(pool, a, b) && NotAfter(pool, b, a) ==> a == b
  }

  function Pushed<T>(order: seq<nat>, outcome: nat -> CaseResult<T>): (r: seq<CaseResult<T>>)
    ensures |r| == |order|
  {
    if order == [] then [] else [outcome(order[0])] + Pushed(order[1..], outcome)
  }

  predicate Distinct(ids: seq<string>) {
    forall j, k :: 0 <= j < k < |ids| ==> ids[j] != ids[k]
  }

  // ---------------------------------------------------------------------------
  // Sorting

  lemma FirstIsLeast<T>(pool: seq<string>, s: seq<CaseResult<T>>, t: seq<CaseResult<T>>)
    requires Sorted(pool, s) && Sorted(pool, t) && multiset(s) == multiset(t) && NoTies(pool, s) && s != [] && t != []
    ensures s[0] == t[0]
  {
    assert s[0] in multiset(t) && t[0] in multiset(s);
    var i :| 0 <= i < |t| && t[i] == s[0];
    var j :| 0 <= j < |s| && s[j] == t[0];
  }

  lemma TailNoTies<T>(pool: seq<string>, s: seq<CaseResult<T>>)
    requires NoTies(pool, s) && s != []
    ensures NoTies(pool, s[1..])
  {
  }

  /** Without ties there is one sorted order. */
  lemma {:induction false} SortedIsUnique<T>(pool: seq<string>, s: seq<CaseResult<T>>, t: seq<CaseResult<T>>)
    requires Sorted(pool, s) && Sorted(pool, t) && multiset(s) == multiset(t) && NoTies(pool, s)
    ensures s == t
    decreases |s|
  {
    hide NotAfter, NoTies;
    SameSize(s, t);
    if s != [] {
      FirstIsLeast(pool, s, t);
      SameTails(s, t);
      TailNoTies(pool, s);
      SortedIsUnique(pool, s[1..], t[1..]);
    }
  }

  /** With a tie between different results there is always another sorted order. */
  lemma TieIsAmbiguous<T>(pool: seq<string>, s: seq<CaseResult<T>>, i: nat, j: nat)
    requires Sorted(pool, s) && i < j < |s| && s[i] != s[j] && NotAfter(pool, s[j], s[i])
    ensures var t := s[i := s[j]][j := s[i]]; t != s && Sorted(pool, t) && multiset(t) == multiset(s)
  {
    var t := s[i := s[j]][j := s[i]];
    assert t[i] != s[i];
    forall k, l | 0 <= k < l < |t| ensures NotAfter(pool, t[k], t[l]) {
      if k < i { assert NotAfter(pool, s[k], s[i]); }
      if k > i { assert NotAfter(pool, s[i], s[k]); }
      if l < j { assert NotAfter(pool, s[l], s[j]); }
      if l > j { assert NotAfter(pool, s[j], s[l]); }
    }
  }

  // ---------------------------------------------------------------------------
  // Completion orders

  lemma {:induction false} CountInDistinct(order: seq<nat>, i: nat)
    requires forall j, k :: 0 <= j < k < |order| ==> order[j] != order[k]
    ensures multiset(order)[i] == if i in order then 1 else 0
  {
    if order != [] {
      assert order == [order[0]] + order[1..];
      CountInDistinct(order[1..], i);
    }
  }

  function InTurn(n: nat): (order: seq<nat>)
    ensures IsOrderOf(order, n)
  {
    var order: seq<nat> := seq(n, i requires 0 <= i => i);
    assert forall i :: 0 <= i < n ==> i in order by {
      forall i | 0 <= i < n ensures i in order { assert order[i] == i; }
    }
    order
  }

  /** All completion orders hold the same indices. */
  lemma OrdersAgree(a: seq<nat>, b: seq<nat>, n: nat)
    requires IsOrderOf(a, n) && IsOrderOf(b, n)
    ensures multiset(a) == multiset(b)
  {
    forall i: nat ensures multiset(a)[i] == multiset(b)[i] {
      CountInDistinct(a, i);
      CountInDistinct(b, i);
    }
  }

  lemma {:induction false} PushedWithout<T>(order: seq<nat>, k: nat, outcome: nat -> CaseResult<T>)
    requires k < |order|
    ensures multiset(Pushed(order, outcome)) == multiset(Pushed(order[..k] + order[k + 1..], outcome)) + multiset{outcome(order[k])}
  {
    var rest := order[..k] + order[k + 1..];
    if k == 0 {
      assert rest == order[1..];
    } else {
      assert rest[1..] == order[1..][..k - 1] + order[1..][k..] && rest[0] == order[0];
      PushedWithout(order[1..], k - 1, outcome);
    }
  }

  lemma {:induction false} PushedAgree<T>(a: seq<nat>, b: seq<nat>, outcome: nat -> CaseResult<T>)
    requires multiset(a) == multiset(b)
    ensures multiset(Pushed(a, outcome)) == multiset(Pushed(b, outcome))
    decreases |a|
  {
    assert |multiset(a)| == |a| && |multiset(b)| == |b|;
    if a != [] {
      assert a[0] in multiset(b);
      var k :| 0 <= k < |b| && b[k] == a[0];
      var rest := b[..k] + b[k + 1..];
      WithoutOneOfBoth(a, 0, b, k);
      assert a[..0] + a[1..] == a[1..];
      PushedAgree(a[1..], rest, outcome);
      PushedWithout(b, k, outcome);
      PushedWithout(a, 0, outcome);
    }
  }

  lemma {:induction false} PushedHolds<T>(order: seq<nat>, outcome: nat -> CaseResult<T>, r: CaseResult<T>)
    requires r in Pushed(order, outcome)
    ensures exists k :: 0 <= k < |order| && r == outcome(order[k])
  {
    if r != outcome(order[0]) {
      PushedHolds(order[1..], outcome, r);
      var k :| 0 <= k < |order[1..]| && r == outcome(order[1..][k]);
      assert order[k + 1] == order[1..][k];
    }
  }

  // ---------------------------------------------------------------------------
  // The summary

  predicate JobsOf(jobs: seq<Job>, chosen: seq<string>, runs: nat) {
    && (forall j, k :: 0 <= j < k < |jobs| ==> jobs[j] != jobs[k])
    && (forall k :: 0 <= k < |jobs| ==> jobs[k].run < runs && jobs[k].id in chosen)
    && (forall run: nat, c :: run < runs && 0 <= c < |chosen| ==> Job(chosen[c], run) in jobs)
  }

  /** Distinct cases give distinct jobs, every case once in every run. */
  lemma {:induction false} JobsDistinct(chosen: seq<string>, runs: nat)
    requires Distinct(chosen)
    ensures JobsOf(Jobs(chosen, runs), chosen, runs)
  {
    if runs > 0 {
      JobsDistinct(chosen, runs - 1);
      var before, jobs := Jobs(chosen, runs - 1), Jobs(chosen, runs);
      assert forall k :: 0 <= k < |before| ==> jobs[k] == before[k];
      assert forall k :: |before| <= k < |jobs| ==> jobs[k] == Job(chosen[k - |before|], runs - 1);
      forall run: nat, c | run < runs && 0 <= c < |chosen| ensures Job(chosen[c], run) in jobs {
        if run == runs - 1 { assert jobs[|before| + c] == Job(chosen[c], run); }
      }
    }
  }

  lemma PushedNoTies<T>(pool: seq<string>, chosen: seq<string>, runs: nat, order: seq<nat>, outcome: nat -> CaseResult<T>)
    requires Distinct(chosen) && forall id :: id in chosen ==> id in pool
    requires var jobs := Jobs(chosen, runs);
             IsOrderOf(order, |jobs|) && forall i :: 0 <= i < |jobs| ==> outcome(i).id == jobs[i].id && outcome(i).run == jobs[i].run
    ensures NoTies(pool, Pushed(order, outcome))
  {
    var jobs := Jobs(chosen, runs);
    JobsDistinct(chosen, runs);
    forall a, b | a in Pushed(order, outcome) && b in Pushed(order, outcome) && NotAfter(pool, a, b) && NotAfter(pool, b, a)
      ensures a == b
    {
      PushedHolds(order, outcome, a);
      PushedHolds(order, outcome, b);
      var j :| 0 <= j < |order| && a == outcome(order[j]);
      var k :| 0 <= k < |order| && b == outcome(order[k]);
      assert jobs[order[j]] == jobs[order[k]];
    }
  }

  /** Two runs of the pool, with any numbers of workers and any interleavings: if each job ends the same way in both, the
      sorted results are the same list, and it holds the result of every job exactly once. */
  lemma SummaryIgnoresSchedule<T(!new)>(
      pool: seq<string>, chosen: seq<string>, runs: nat, outcome: nat -> CaseResult<T>,
      workers: nat, actions: seq<Action>, sorted: seq<CaseResult<T>>,
      workers': nat, actions': seq<Action>, sorted': seq<CaseResult<T>>)
    requires Distinct(chosen) && forall id :: id in chosen ==> id in pool
    requires forall i :: 0 <= i < |Jobs(chosen, runs)| ==>
               outcome(i).id == Jobs(chosen, runs)[i].id && outcome(i).run == Jobs(chosen, runs)[i].run
    requires var n := |Jobs(chosen, runs)|;
             && workers >= 1 && IsRun(Start(n, workers), actions, outcome) && Finished(After(Start(n, workers), actions, outcome))
             && SortOf(pool, Pushed(After(Start(n, workers), actions, outcome).order, outcome), sorted)
    requires var n := |Jobs(chosen, runs)|;
             && workers' >= 1 && IsRun(Start(n, workers'), actions', outcome) && Finished(After(Start(n, workers'), actions', outcome))
             && SortOf(pool, Pushed(After(Start(n, workers'), actions', outcome).order, outcome), sorted')
    ensures sorted == sorted' && multiset(sorted) == multiset(Pushed(InTurn(|Jobs(chosen, runs)|), outcome))
  {
    hide IsRun, Finished, Jobs, NotAfter;
    var n := |Jobs(chosen, runs)|;
    FinishedHasAllResults(n, workers, actions, outcome);
    FinishedHasAllResults(n, workers', actions', outcome);
    var order, order' := After(Start(n, workers), actions, outcome).order, After(Start(n, workers'), actions', outcome).order;
    hide After;
    OrdersAgree(order, order', n);
    PushedAgree(order, order', outcome);
    var inTurn := InTurn(n);
    OrdersAgree(order, inTurn, n);
    PushedAgree(order, inTurn, outcome);
    PushedNoTies(pool, chosen, runs, order, outcome);
    NoTiesInSort(pool, Pushed(order, outcome), sorted);
    SortedIsUnique(pool, sorted, sorted');
  }

  lemma NoTiesInSort<T>(pool: seq<string>, results: seq<CaseResult<T>>, sorted: seq<CaseResult<T>>)
    requires SortOf(pool, results, sorted) && NoTies(pool, results)
    ensures NoTies(pool, sorted)
  {
    hide NotAfter;
    forall a | a in sorted ensures a in results {
      assert a in multiset(sorted);
    }
  }
}
