/** A fixed number of workers that take job numbers from one shared counter. Workers interleave at every await; the theorems
    hold for every interleaving. */
module WorkerPool {
  import opened Strings

  /** A worker about to look at the counter, waiting for the work on an index, or past its loop. */
  datatype Worker = Ready | Running(index: nat) | Stopped

  datatype Pool<R> = Pool(
    n: nat,
    next: nat,
    workers: seq<Worker>,
    results: seq<Option<R>>,
    order: seq<nat>)  // the indices in the order their work resolved

  function Start<R>(n: nat, jobs: nat): Pool<R> {
    Pool(n, 0, seq(if jobs < n then jobs else n, _ => Ready), seq(n, _ => None), [])
  }

  /** Worker `w` has its turn: it claims the next index, or stops. */
  predicate CanTurn<R>(p: Pool<R>, w: nat) { w < |p.workers| && p.workers[w].Ready? }

  function Turn<R>(p: Pool<R>, w: nat): Pool<R>
    requires CanTurn(p, w)
  {
    if p.next < p.n then p.(next := p.next + 1, workers := p.workers[w := Running(p.next)])
    else p.(workers := p.workers[w := Stopped])
  }

  /** The work of worker `w` resolves with the outcome of its index. */
  predicate CanResolve<R>(p: Pool<R>, w: nat) { w < |p.workers| && p.workers[w].Running? && p.workers[w].index < |p.results| }

  function Resolve<R>(p: Pool<R>, w: nat, outcome: nat -> R): Pool<R>
    requires CanResolve(p, w)
  {
    var i := p.workers[w].index;
    p.(results := p.results[i := Some(outcome(i))], order := p.order + [i], workers := p.workers[w := Ready])
  }

  datatype Action = Take(w: nat) | Settle(w: nat)

  predicate Enabled<R>(p: Pool<R>, a: Action) {
    match a
    case Take(w) => CanTurn(p, w)
    case Settle(w) => CanResolve(p, w)
  }

  function Act<R>(p: Pool<R>, a: Action, outcome: nat -> R): Pool<R>
    requires Enabled(p, a)
  {
    match a
    case Take(w) => Turn(p, w)
    case Settle(w) => Resolve(p, w, outcome)
  }

  /** One interleaving, action by action. */
  predicate IsRun<R>(p: Pool<R>, actions: seq<Action>, outcome: nat -> R)
    decreases |actions|
  {
    actions != [] ==> Enabled(p, actions[0]) && IsRun(Act(p, actions[0], outcome), actions[1..], outcome)
  }

  function After<R>(p: Pool<R>, actions: seq<Action>, outcome: nat -> R): Pool<R>
    requires IsRun(p, actions, outcome)
    decreases |actions|
  {
    if actions == [] then p else After(Act(p, actions[0], outcome), actions[1..], outcome)
  }

  /** The indices claimed along a run. */
  function Claims<R>(p: Pool<R>, actions: seq<Action>, outcome: nat -> R): seq<nat>
    requires IsRun(p, actions, outcome)
    decreases |actions|
  {
    if actions == [] then []
    else Claimed(p, actions[0]) + Claims(Act(p, actions[0], outcome), actions[1..], outcome)
  }

  /** What one action claims: the next index, or nothing. */
  function Claimed<R>(p: Pool<R>, a: Action): seq<nat> {
    if a.Take? && p.next < p.n then [p.next] else []
  }

  predicate Finished<R>(p: Pool<R>) {
    forall w :: 0 <= w < |p.workers| ==> p.workers[w].Stopped?
  }

  function InFlight(workers: seq<Worker>): nat {
    if workers == [] then 0 else (if workers[0].Running? then 1 else 0) + InFlight(workers[1..])
  }

  // ---------------------------------------------------------------------------
  // What every step keeps

  ghost predicate Inv<R(!new)>(p: Pool<R>, outcome: nat -> R) {
    && p.next <= p.n == |p.results|
    && (forall w :: 0 <= w < |p.workers| && p.workers[w].Running? ==> p.workers[w].index < p.next && p.workers[w].index !in p.order)
    && (forall v, w :: 0 <= v < w < |p.workers| && p.workers[v].Running? && p.workers[w].Running? ==>
          p.workers[v].index != p.workers[w].index)
    && (forall w :: 0 <= w < |p.workers| && p.workers[w].Stopped? ==> p.next == p.n)
    && (forall j, k :: 0 <= j < k < |p.order| ==> p.order[j] != p.order[k])
    && (forall k :: 0 <= k < |p.order| ==> p.order[k] < p.next)
    && (forall i :: 0 <= i < p.n ==> p.results[i] == if i in p.order then Some(outcome(i)) else None)
  }

  /** Every claimed index is waited for or done. */
  ghost predicate Accounted<R>(p: Pool<R>) {
    forall i :: 0 <= i < p.next ==> i in p.order || exists w :: 0 <= w < |p.workers| && p.workers[w] == Running(i)
  }

  lemma StartInv<R(!new)>(n: nat, jobs: nat, outcome: nat -> R)
    ensures Inv(Start(n, jobs), outcome) && Accounted<R>(Start(n, jobs))
    ensures InFlight(Start<R>(n, jobs).workers) == 0
  {
    ReadyFlight(Start<R>(n, jobs).workers);
  }

  lemma {:induction false} ReadyFlight(workers: seq<Worker>)
    requires forall w :: 0 <= w < |workers| ==> !workers[w].Running?
    ensures InFlight(workers) == 0
  {
    if workers != [] { ReadyFlight(workers[1..]); }
  }

  lemma {:induction false} FlightAfter(workers: seq<Worker>, w: nat, worker: Worker)
    requires w < |workers|
    ensures InFlight(workers[w := worker])
         == InFlight(workers) - (if workers[w].Running? then 1 else 0) + (if worker.Running? then 1 else 0)
  {
    if w > 0 {
      assert workers[w := worker][1..] == workers[1..][w - 1 := worker];
      FlightAfter(workers[1..], w - 1, worker);
    } else {
      assert workers[w := worker][1..] == workers[1..];
    }
  }

  lemma ActKeepsInv<R(!new)>(p: Pool<R>, a: Action, outcome: nat -> R)
    requires Inv(p, outcome) && Enabled(p, a)
    ensures Inv(Act(p, a, outcome), outcome)
  {
    var r := Act(p, a, outcome);
    if a.Settle? {
      var i := p.workers[a.w].index;
      assert forall k :: k in r.order <==> k in p.order || k == i;
    }
  }

  lemma ActKeepsAccounted<R(!new)>(p: Pool<R>, a: Action, outcome: nat -> R)
    requires Inv(p, outcome) && Enabled(p, a) && Accounted(p)
    ensures Accounted(Act(p, a, outcome))
  {
    var r := Act(p, a, outcome);
    if a.Settle? { assert p.order <= r.order && r.order[|p.order|] == p.workers[a.w].index; }
    forall i | 0 <= i < r.next && i !in r.order
      ensures exists w :: 0 <= w < |r.workers| && r.workers[w] == Running(i)
    {
      if i == p.next {
        assert r.workers[a.w] == Running(i);
      } else {
        assert i !in p.order;
        var w :| 0 <= w < |p.workers| && p.workers[w] == Running(i);
        assert r.workers[w] == Running(i);
      }
    }
  }

  /** The `k` indices from `i` on. */
  function From(i: nat, k: nat): seq<nat> { seq(k, j requires 0 <= j => i + j) }

  lemma FromBoth(i: nat, a: nat, b: nat)
    ensures From(i, a) + From(i + a, b) == From(i, a + b)
  {
  }

  /** Works in flight are exactly the claims not yet resolved, and never more than the workers. */
  lemma ActKeepsBalance<R>(p: Pool<R>, a: Action, outcome: nat -> R)
    requires Enabled(p, a) && p.next <= p.n && InFlight(p.workers) + |p.order| == p.next
    ensures var r := Act(p, a, outcome);
            && InFlight(r.workers) + |r.order| == r.next && |r.workers| == |p.workers| && r.n == p.n
            && p.next <= r.next && Claimed(p, a) == From(p.next, r.next - p.next)
  {
    var worker := Act(p, a, outcome).workers[a.w];
    FlightAfter(p.workers, a.w, worker);
  }

  lemma {:induction false} FlightBound(workers: seq<Worker>)
    ensures InFlight(workers) <= |workers|
  {
    if workers != [] { FlightBound(workers[1..]); }
  }

  /** How many actions a run can still take: every claim and every resolution, and each worker's last turn. */
  function Left<R>(p: Pool<R>): int {
    2 * (p.n - p.next) + Weight(p.workers)
  }

  function Weight(workers: seq<Worker>): nat {
    if workers == [] then 0
    else (match workers[0] case Ready => 1 case Running(_) => 2 case Stopped => 0) + Weight(workers[1..])
  }

  lemma {:induction false} WeightAfter(workers: seq<Worker>, w: nat, worker: Worker)
    requires w < |workers|
    ensures Weight(workers[w := worker]) == Weight(workers) - Weight([workers[w]]) + Weight([worker])
  {
    if w > 0 {
      assert workers[w := worker][1..] == workers[1..][w - 1 := worker];
      WeightAfter(workers[1..], w - 1, worker);
    } else {
      assert workers[w := worker][1..] == workers[1..];
    }
  }

  /** Every action uses up exactly one. */
  lemma ActUsesOne<R>(p: Pool<R>, a: Action, outcome: nat -> R)
    requires Enabled(p, a)
    ensures Left(Act(p, a, outcome)) == Left(p) - 1
  {
    WeightAfter(p.workers, a.w, Act(p, a, outcome).workers[a.w]);
  }

  // ---------------------------------------------------------------------------
  // Whole runs

  lemma {:induction false} RunKeeps<R(!new)>(p: Pool<R>, actions: seq<Action>, outcome: nat -> R)
    requires IsRun(p, actions, outcome) && Inv(p, outcome) && Accounted(p) && InFlight(p.workers) + |p.order| == p.next
    ensures var r := After(p, actions, outcome);
            && Inv(r, outcome) && Accounted(r) && InFlight(r.workers) + |r.order| == r.next
            && |r.workers| == |p.workers| && r.n == p.n && p.next <= r.next
            && Left(r) == Left(p) - |actions|
            && Claims(p, actions, outcome) == From(p.next, r.next - p.next)
    decreases |actions|
  {
    hide Inv, Accounted, Left, Act, InFlight, Claimed, From;
    if actions == [] {
      NothingClaimed(p.next);
    } else {
      var a := actions[0];
      ActKeepsInv(p, a, outcome);
      ActKeepsAccounted(p, a, outcome);
      assert p.next <= p.n by { InvBounds(p, outcome); }
      ActKeepsBalance(p, a, outcome);
      ActUsesOne(p, a, outcome);
      RunKeeps(Act(p, a, outcome), actions[1..], outcome);
      var q, r := Act(p, a, outcome), After(p, actions, outcome);
      FromBoth(p.next, q.next - p.next, r.next - q.next);
    }
  }

  lemma NothingClaimed(i: nat)
    ensures From(i, 0) == []
  {
  }

  lemma InvBounds<R(!new)>(p: Pool<R>, outcome: nat -> R)
    requires Inv(p, outcome)
    ensures p.next <= p.n == |p.results|
  {
  }

  /** Any interleaving: indices are claimed once each and in order, no more works are in flight than there are workers, what
      is stored is the outcome of its index, and the run is no longer than two actions an index and one a worker. */
  lemma RunSafe<R(!new)>(n: nat, jobs: nat, actions: seq<Action>, outcome: nat -> R)
    requires IsRun(Start(n, jobs), actions, outcome)
    ensures var r := After(Start(n, jobs), actions, outcome);
            && Claims(Start(n, jobs), actions, outcome) == From(0, r.next)
            && InFlight(r.workers) == r.next - |r.order| <= (if jobs < n then jobs else n)
            && |actions| + Left(r) == 2 * n + (if jobs < n then jobs else n)
            && Left(r) >= 0
    ensures var r := After(Start(n, jobs), actions, outcome);
            |r.results| == n && forall i :: 0 <= i < n ==> r.results[i] == if i in r.order then Some(outcome(i)) else None
  {
    var p := Start<R>(n, jobs);
    StartInv(n, jobs, outcome);
    RunKeeps(p, actions, outcome);
    FlightBound(After(p, actions, outcome).workers);
    AllReadyWeight(p.workers);
    InvStored(After(p, actions, outcome), outcome);
  }

  lemma InvStored<R(!new)>(p: Pool<R>, outcome: nat -> R)
    requires Inv(p, outcome)
    ensures p.next <= p.n == |p.results|
    ensures forall i :: 0 <= i < p.n ==> p.results[i] == if i in p.order then Some(outcome(i)) else None
  {
  }

  lemma {:induction false} AllReadyWeight(workers: seq<Worker>)
    requires forall w :: 0 <= w < |workers| ==> workers[w].Ready?
    ensures Weight(workers) == |workers|
  {
    if workers != [] { AllReadyWeight(workers[1..]); }
  }

  /** No interleaving is stuck: while some worker has not stopped, some action is enabled. */
  lemma RunNeverStuck<R(!new)>(n: nat, jobs: nat, actions: seq<Action>, outcome: nat -> R)
    requires IsRun(Start(n, jobs), actions, outcome)
    ensures var r := After(Start(n, jobs), actions, outcome); Finished(r) || exists a :: Enabled(r, a)
  {
    StartInv(n, jobs, outcome);
    RunKeeps(Start(n, jobs), actions, outcome);
    var r := After(Start(n, jobs), actions, outcome);
    if !Finished(r) {
      var w :| 0 <= w < |r.workers| && !r.workers[w].Stopped?;
      assert Enabled(r, if r.workers[w].Ready? then Take(w) else Settle(w));
    }
  }

  /** `order` names every index below `n` exactly once. */
  predicate IsOrderOf(order: seq<nat>, n: nat) {
    && |order| == n
    && (forall k :: 0 <= k < |order| ==> order[k] < n)
    && (forall j, k :: 0 <= j < k < |order| ==> order[j] != order[k])
    && (forall i :: 0 <= i < n ==> i in order)
  }

  lemma FinishedComplete<R(!new)>(r: Pool<R>, outcome: nat -> R)
    requires Inv(r, outcome) && Accounted(r) && InFlight(r.workers) + |r.order| == r.next
    requires Finished(r) && r.workers != []
    ensures r.results == seq(r.n, i requires 0 <= i => Some(outcome(i)))
    ensures IsOrderOf(r.order, r.n) && Left(r) == 0
  {
    assert r.workers[0].Stopped?;
    ReadyFlight(r.workers);
    StoppedWeight(r.workers);
    forall i | 0 <= i < r.n ensures r.results[i] == Some(outcome(i)) {
      assert i in r.order;
    }
  }

  /** With at least one worker, any run that finishes has every result and took two actions an index and one a worker. */
  lemma FinishedWithWorkers<R(!new)>(n: nat, jobs: nat, actions: seq<Action>, outcome: nat -> R)
    requires IsRun(Start(n, jobs), actions, outcome) && Finished(After(Start(n, jobs), actions, outcome))
    requires jobs >= 1 && n >= 1
    ensures var r := After(Start(n, jobs), actions, outcome);
            && r.results == seq(n, i requires 0 <= i => Some(outcome(i)))
            && |actions| == 2 * n + |r.workers| && IsOrderOf(r.order, n)
  {
    var p := Start<R>(n, jobs);
    StartInv(n, jobs, outcome);
    AllReadyWeight(p.workers);
    assert Left(p) == 2 * n + |p.workers| && p.workers != [];
    hide Inv, Accounted, Finished, IsRun, After, Claims, Left, Start, IsOrderOf;
    RunKeeps(p, actions, outcome);
    FinishedComplete(After(p, actions, outcome), outcome);
  }

  /** A pool that finishes has every result, whatever the interleaving, exactly when it was given a worker or nothing to do. */
  lemma FinishedHasAllResults<R(!new)>(n: nat, jobs: nat, actions: seq<Action>, outcome: nat -> R)
    requires IsRun(Start(n, jobs), actions, outcome) && Finished(After(Start(n, jobs), actions, outcome))
    ensures var r := After(Start(n, jobs), actions, outcome);
            && (r.results == seq(n, i requires 0 <= i => Some(outcome(i))) <==> jobs >= 1 || n == 0)
            && (jobs >= 1 ==> |actions| == 2 * n + |r.workers| && IsOrderOf(r.order, n))
  {
    if jobs >= 1 && n >= 1 {
      FinishedWithWorkers(n, jobs, actions, outcome);
    } else {
      NoWorkersNoActions(Start(n, jobs), actions, outcome);
      if n >= 1 { assert Start<R>(n, jobs).results[0] == None; }
    }
  }

  lemma NoWorkersNoActions<R>(p: Pool<R>, actions: seq<Action>, outcome: nat -> R)
    requires p.workers == [] && IsRun(p, actions, outcome)
    ensures actions == [] && After(p, actions, outcome) == p
  {
  }

  lemma {:induction false} StoppedWeight(workers: seq<Worker>)
    requires forall w :: 0 <= w < |workers| ==> workers[w].Stopped?
    ensures Weight(workers) == 0
  {
    if workers != [] { StoppedWeight(workers[1..]); }
  }

  /** The pool itself, with the host choosing freely which worker goes on after each await. */
  method RunPool<R(!new)>(n: nat, jobs: nat, outcome: nat -> R) returns (results: seq<Option<R>>)
    ensures results == seq(n, i requires 0 <= i => Some(outcome(i))) <==> jobs >= 1 || n == 0
  {
    var p := Start<R>(n, jobs);
    ghost var actions: seq<Action> := [];
    StartInv(n, jobs, outcome);
    assert After(p, actions, outcome) == p;
    while exists w :: 0 <= w < |p.workers| && !p.workers[w].Stopped?
      invariant IsRun(Start(n, jobs), actions, outcome) && After(Start(n, jobs), actions, outcome) == p
      invariant Inv(p, outcome)
      decreases Left(p) + 2 * p.n
    {
      var w :| 0 <= w < |p.workers| && !p.workers[w].Stopped?;
      ghost var a := if p.workers[w].Ready? then Take(w) else Settle(w);
      ActKeepsInv(p, a, outcome);
      ActUsesOne(p, a, outcome);
      LongerRun(Start(n, jobs), actions, a, outcome);
      actions := actions + [a];
      p := if p.workers[w].Ready? then Turn(p, w) else Resolve(p, w, outcome);
    }
    FinishedHasAllResults(n, jobs, actions, outcome);
    results := p.results;
  }

  lemma {:induction false} LongerRun<R>(p: Pool<R>, actions: seq<Action>, a: Action, outcome: nat -> R)
    requires IsRun(p, actions, outcome) && Enabled(After(p, actions, outcome), a)
    ensures IsRun(p, actions + [a], outcome)
    ensures After(p, actions + [a], outcome) == Act(After(p, actions, outcome), a, outcome)
    decreases |actions|
  {
    if actions == [] {
      assert actions + [a] == [a] && [a][1..] == [];
    } else {
      assert (actions + [a])[1..] == actions[1..] + [a];
      LongerRun(Act(p, actions[0], outcome), actions[1..], a, outcome);
    }
  }
}
