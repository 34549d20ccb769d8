/** The build cache as processes sharing a directory: a build is copied block by block beside its name and renamed over it, and
    any process may be killed between any two steps. A name in the cache always holds a whole build of its commit. */
module BuildCache {
  import opened Strings

  type Block = nat
  type Build = seq<Block>

  /** Which file contents are a complete build of a commit. */
  type Complete = (string, Build) -> bool

  datatype Host = Host(platform: string, arch: string)

  /** Architecture names hold no dash and are not numbers. */
  predicate ProperHost(host: Host) {
    '-' !in host.arch && !AllDigits(host.arch)
  }

  function CacheName(host: Host, sha: string): string {
    sha + "-" + host.platform + "-" + host.arch
  }

  function PartialName(host: Host, sha: string, pid: nat): string {
    CacheName(host, sha) + ".part-" + Decimal(pid)
  }

  /** What a process is doing. A copy holds the open file; a take holds what it has read so far. */
  datatype Process =
    | Idle
    | Keeping(sha: string, build: Build, file: nat, written: nat)
    | Renaming(sha: string, file: nat)
    | Found(sha: string)
    | Reading(sha: string, file: nat, got: Build)
    | Took(sha: string, copy: Option<Build>)

  /** The cache directory, the files behind its names (and those still open without one), and the live processes by pid. */
  datatype System = System(
    names: map<string, nat>,
    files: map<nat, Build>,
    processes: map<nat, Process>)

  datatype Action =
    | Spawn
    | Kill
    | StartKeep(sha: string, build: Build, file: nat)
    | WriteBlock
    | FinishCopy
    | Rename
    | StartTake(sha: string)
    | Open
    | ReadBlock
    | FinishTake
    | Next

  predicate Can(host: Host, complete: Complete, s: System, pid: nat, a: Action) {
    if a.Spawn? then pid !in s.processes
    else pid in s.processes && CanGoOn(host, complete, s, pid, s.processes[pid], a)
  }

  predicate CanGoOn(host: Host, complete: Complete, s: System, pid: nat, p: Process, a: Action) {
    match a
    case Spawn => false
    case Kill => true
    case StartKeep(sha, build, unused) => p.Idle? && complete(sha, build) && unused !in s.files
    case WriteBlock => p.Keeping? && p.written < |p.build| && p.file in s.files
    case FinishCopy => p.Keeping? && p.written == |p.build|
    case Rename => p.Renaming? && PartialName(host, p.sha, pid) in s.names
    case StartTake(_) => p.Idle?
    case Open => p.Found? && CacheName(host, p.sha) in s.names
    case ReadBlock => p.Reading? && p.file in s.files && |p.got| < |s.files[p.file]|
    case FinishTake => p.Reading? && p.file in s.files && |p.got| == |s.files[p.file]|
    case Next => p.Took?
  }

  function With(s: System, pid: nat, p: Process): System { s.(processes := s.processes[pid := p]) }

  function Do(host: Host, complete: Complete, s: System, pid: nat, a: Action): System
    requires Can(host, complete, s, pid, a)
  {
    match a
    case Spawn => With(s, pid, Idle)
    case Kill => s.(processes := s.processes - {pid})
    case StartKeep(sha, build, unused) =>
      // Opening for writing truncates the file a killed process of the same pid may have left.
      var name := PartialName(host, sha, pid);
      var file := if name in s.names then s.names[name] else unused;
      With(s.(names := s.names[name := file], files := s.files[file := []]), pid, Keeping(sha, build, file, 0))
    case WriteBlock =>
      var p := s.processes[pid];
      With(s.(files := s.files[p.file := s.files[p.file] + [p.build[p.written]]]), pid, p.(written := p.written + 1))
    case FinishCopy => With(s, pid, Renaming(s.processes[pid].sha, s.processes[pid].file))
    case Rename =>
      var sha := s.processes[pid].sha;
      var name := PartialName(host, sha, pid);
      With(s.(names := (s.names - {name})[CacheName(host, sha) := s.names[name]]), pid, Idle)
    case StartTake(sha) => With(s, pid, if CacheName(host, sha) in s.names then Found(sha) else Took(sha, None))
    case Open => With(s, pid, Reading(s.processes[pid].sha, s.names[CacheName(host, s.processes[pid].sha)], []))
    case ReadBlock =>
      var p := s.processes[pid];
      With(s, pid, p.(got := p.got + [s.files[p.file][|p.got|]]))
    case FinishTake => With(s, pid, Took(s.processes[pid].sha, Some(s.processes[pid].got)))
    case Next => With(s, pid, Idle)
  }

  predicate IsRun(host: Host, complete: Complete, s: System, steps: seq<(nat, Action)>)
    decreases |steps|
  {
    steps != [] ==>
      && Can(host, complete, s, steps[0].0, steps[0].1)
      && IsRun(host, complete, Do(host, complete, s, steps[0].0, steps[0].1), steps[1..])
  }

  function After(host: Host, complete: Complete, s: System, steps: seq<(nat, Action)>): System
    requires IsRun(host, complete, s, steps)
    decreases |steps|
  {
    if steps == [] then s else After(host, complete, Do(host, complete, s, steps[0].0, steps[0].1), steps[1..])
  }

  // ---------------------------------------------------------------------------
  // Names

  lemma {:induction false} LastDash(a: string, x: string, b: string, y: string)
    requires a + "-" + x == b + "-" + y && '-' !in x && '-' !in y
    ensures a == b && x == y
  {
    var s := a + "-" + x;
    assert s[|a|] == '-' && s[|b|] == '-';
    assert forall k :: |a| < k < |s| ==> s[k] == x[k - |a| - 1];
    assert forall k :: |b| < k < |s| ==> s[k] == y[k - |b| - 1];
    assert |a| == |b|;
    assert s[..|a|] == a && s[..|b|] == b;
    assert s[|a| + 1..] == x && s[|b| + 1..] == y;
  }

  lemma NamesApart(host: Host, sha: string, pid: nat, sha': string, pid': nat)
    requires ProperHost(host)
    ensures PartialName(host, sha, pid) != CacheName(host, sha')
    ensures PartialName(host, sha, pid) == PartialName(host, sha', pid') ==> sha == sha' && pid == pid'
    ensures CacheName(host, sha) == CacheName(host, sha') ==> sha == sha'
  {
    var d, d' := Decimal(pid), Decimal(pid');
    assert '-' !in d && '-' !in d' by { assert !Digit('-'); }
    var tail := "-" + host.platform + "-" + host.arch;
    assert forall t :: CacheName(host, t) == t + tail;
    assert PartialName(host, sha, pid) == (CacheName(host, sha) + ".part") + "-" + d;
    assert PartialName(host, sha', pid') == (CacheName(host, sha') + ".part") + "-" + d';
    if PartialName(host, sha, pid) == CacheName(host, sha') {
      LastDash(CacheName(host, sha) + ".part", d, sha' + "-" + host.platform, host.arch);
    }
    if PartialName(host, sha, pid) == PartialName(host, sha', pid') {
      LastDash(CacheName(host, sha) + ".part", d, CacheName(host, sha') + ".part", d');
      SameFront(CacheName(host, sha), CacheName(host, sha'), ".part");
      SameFront(sha, sha', tail);
    }
    if CacheName(host, sha) == CacheName(host, sha') { SameFront(sha, sha', tail); }
  }

  lemma SameFront(a: string, b: string, tail: string)
    requires a + tail == b + tail
    ensures a == b
  {
    assert |a| == |b|;
    assert a == (a + tail)[..|a|] && b == (b + tail)[..|b|];
  }

  // ---------------------------------------------------------------------------
  // What every step keeps

  /** No two names share a file. */
  predicate OneNameEach(s: System) {
    && (forall n :: n in s.names ==> s.names[n] in s.files)
    && (forall n, m :: n in s.names && m in s.names && n != m ==> s.names[n] != s.names[m])
  }

  /** Every name of a commit holds a whole build of it. */
  ghost predicate CacheWhole(host: Host, complete: Complete, s: System) {
    forall sha :: CacheName(host, sha) in s.names ==>
      s.names[CacheName(host, sha)] in s.files && complete(sha, s.files[s.names[CacheName(host, sha)]])
  }

  /** `file` is not under the partial name of any process: nobody will write to it. */
  ghost predicate Sealed(host: Host, s: System, file: nat) {
    forall sha, pid :: PartialName(host, sha, pid) in s.names ==> s.names[PartialName(host, sha, pid)] != file
  }

  ghost predicate ProcessOk(host: Host, complete: Complete, s: System, pid: nat)
    requires pid in s.processes
  {
    match s.processes[pid]
    case Idle => true
    case Keeping(sha, build, file, written) =>
      && complete(sha, build) && written <= |build|
      && PartialName(host, sha, pid) in s.names && s.names[PartialName(host, sha, pid)] == file
      && file in s.files && s.files[file] == build[..written]
    case Renaming(sha, file) =>
      && PartialName(host, sha, pid) in s.names && s.names[PartialName(host, sha, pid)] == file
      && file in s.files && complete(sha, s.files[file])
    case Found(sha) => CacheName(host, sha) in s.names
    case Reading(sha, file, got) =>
      && file in s.files && complete(sha, s.files[file]) && got <= s.files[file] && Sealed(host, s, file)
    case Took(sha, copy) => copy.Some? ==> complete(sha, copy.value)
  }

  ghost predicate Inv(host: Host, complete: Complete, s: System) {
    && OneNameEach(s) && CacheWhole(host, complete, s)
    && forall pid :: pid in s.processes ==> ProcessOk(host, complete, s, pid)
  }

  /** A file under a partial name or a cache name of its own is changed by the process of that pid only. */
  lemma StartKeepKeeps(host: Host, complete: Complete, s: System, pid: nat, a: Action)
    requires ProperHost(host) && Inv(host, complete, s) && a.StartKeep? && Can(host, complete, s, pid, a)
    ensures Inv(host, complete, Do(host, complete, s, pid, a))
  {
    hide CacheName, PartialName;
    var r, name := Do(host, complete, s, pid, a), PartialName(host, a.sha, pid);
    forall sha | CacheName(host, sha) in r.names
      ensures r.names[CacheName(host, sha)] in r.files && complete(sha, r.files[r.names[CacheName(host, sha)]])
    {
      NamesApart(host, a.sha, pid, sha, pid);
    }
    forall q | q in r.processes ensures ProcessOk(host, complete, r, q) {
      if q != pid {
        assert ProcessOk(host, complete, s, q);
        match s.processes[q]
        case Keeping(sha, _, _, _) => NamesApart(host, sha, q, a.sha, pid);
        case Renaming(sha, _) => NamesApart(host, sha, q, a.sha, pid);
        case Reading(sha, file, _) =>
          forall t, k | PartialName(host, t, k) in r.names ensures r.names[PartialName(host, t, k)] != file {
            if PartialName(host, t, k) in s.names { assert s.names[PartialName(host, t, k)] != file; }
          }
        case _ =>
      }
    }
  }

  lemma WriteKeeps(host: Host, complete: Complete, s: System, pid: nat)
    requires ProperHost(host) && Inv(host, complete, s) && Can(host, complete, s, pid, WriteBlock)
    ensures Inv(host, complete, Do(host, complete, s, pid, WriteBlock))
  {
    hide CacheName, PartialName;
    var r, p := Do(host, complete, s, pid, WriteBlock), s.processes[pid];
    assert ProcessOk(host, complete, s, pid);
    forall sha | CacheName(host, sha) in r.names
      ensures r.names[CacheName(host, sha)] in r.files && complete(sha, r.files[r.names[CacheName(host, sha)]])
    {
      NamesApart(host, p.sha, pid, sha, pid);
    }
    forall q | q in r.processes ensures ProcessOk(host, complete, r, q) {
      if q != pid {
        assert ProcessOk(host, complete, s, q);
        match s.processes[q]
        case Keeping(sha, _, _, _) => NamesApart(host, sha, q, p.sha, pid);
        case Renaming(sha, _) => NamesApart(host, sha, q, p.sha, pid);
        case _ =>
      } else {
        assert p.build[..p.written + 1] == p.build[..p.written] + [p.build[p.written]];
      }
    }
  }

  lemma RenameKeeps(host: Host, complete: Complete, s: System, pid: nat)
    requires ProperHost(host) && Inv(host, complete, s) && Can(host, complete, s, pid, Rename)
    ensures Inv(host, complete, Do(host, complete, s, pid, Rename))
  {
    hide CacheName, PartialName;
    var r, p := Do(host, complete, s, pid, Rename), s.processes[pid];
    var name, target := PartialName(host, p.sha, pid), CacheName(host, p.sha);
    assert ProcessOk(host, complete, s, pid);
    forall sha | CacheName(host, sha) in r.names
      ensures r.names[CacheName(host, sha)] in r.files && complete(sha, r.files[r.names[CacheName(host, sha)]])
    {
      NamesApart(host, p.sha, pid, sha, pid);
      NamesApart(host, sha, pid, p.sha, pid);
    }
    forall q | q in r.processes ensures ProcessOk(host, complete, r, q) {
      if q != pid {
        assert ProcessOk(host, complete, s, q);
        match s.processes[q]
        case Keeping(sha, _, _, _) =>
          NamesApart(host, sha, q, p.sha, pid);
        case Renaming(sha, _) =>
          NamesApart(host, sha, q, p.sha, pid);
        case Found(sha) =>
          NamesApart(host, p.sha, pid, sha, pid);
        case Reading(sha, file, _) =>
          forall t, k | PartialName(host, t, k) in r.names ensures r.names[PartialName(host, t, k)] != file {
            NamesApart(host, t, k, p.sha, pid);
          }
        case _ =>
      }
    }
  }

  lemma OpenKeeps(host: Host, complete: Complete, s: System, pid: nat)
    requires ProperHost(host) && Inv(host, complete, s) && Can(host, complete, s, pid, Open)
    ensures Inv(host, complete, Do(host, complete, s, pid, Open))
  {
    hide CacheName, PartialName;
    var r, sha := Do(host, complete, s, pid, Open), s.processes[pid].sha;
    assert ProcessOk(host, complete, s, pid);
    forall q | q in r.processes ensures ProcessOk(host, complete, r, q) {
      if q != pid {
        assert ProcessOk(host, complete, s, q);
      } else {
        forall t, k | PartialName(host, t, k) in r.names ensures r.names[PartialName(host, t, k)] != r.names[CacheName(host, sha)] {
          NamesApart(host, t, k, sha, pid);
        }
      }
    }
  }

  /** Steps that only change the process that takes them. */
  lemma QuietKeeps(host: Host, complete: Complete, s: System, pid: nat, a: Action)
    requires ProperHost(host) && Inv(host, complete, s) && Can(host, complete, s, pid, a)
    requires !a.StartKeep? && !a.WriteBlock? && !a.Rename? && !a.Open?
    ensures Inv(host, complete, Do(host, complete, s, pid, a))
  {
    hide CacheName, PartialName, Sealed;
    var r := Do(host, complete, s, pid, a);
    if pid in s.processes { assert ProcessOk(host, complete, s, pid); }
    forall q | q in r.processes ensures ProcessOk(host, complete, r, q) {
      if q != pid {
        assert ProcessOk(host, complete, s, q);
        SealedStill(host, s, r);
      } else if a.FinishCopy? {
        assert s.processes[pid].build[..|s.processes[pid].build|] == s.processes[pid].build;
      } else if a.FinishTake? {
        assert s.processes[pid].got == s.files[s.processes[pid].file];
      } else {
        SealedStill(host, s, r);
      }
    }
  }

  lemma SealedStill(host: Host, s: System, r: System)
    requires r.names == s.names
    ensures forall file :: Sealed(host, s, file) <==> Sealed(host, r, file)
  {
  }

  lemma StepKeeps(host: Host, complete: Complete, s: System, pid: nat, a: Action)
    requires ProperHost(host) && Inv(host, complete, s) && Can(host, complete, s, pid, a)
    ensures Inv(host, complete, Do(host, complete, s, pid, a))
  {
    hide Inv, Do;
    match a
    case StartKeep(_, _, _) => StartKeepKeeps(host, complete, s, pid, a);
    case WriteBlock => WriteKeeps(host, complete, s, pid);
    case Rename => RenameKeeps(host, complete, s, pid);
    case Open => OpenKeeps(host, complete, s, pid);
    case _ => QuietKeeps(host, complete, s, pid, a);
  }

  lemma StepKeepsNames(host: Host, complete: Complete, s: System, pid: nat, a: Action, sha: string)
    requires ProperHost(host) && Inv(host, complete, s) && Can(host, complete, s, pid, a)
    ensures CacheName(host, sha) in s.names ==> CacheName(host, sha) in Do(host, complete, s, pid, a).names
  {
    hide CacheName, PartialName;
    if a.Rename? { NamesApart(host, s.processes[pid].sha, pid, sha, pid); }
  }

  lemma {:induction false} RunKeeps(host: Host, complete: Complete, s: System, steps: seq<(nat, Action)>, sha: string)
    requires ProperHost(host) && Inv(host, complete, s) && IsRun(host, complete, s, steps)
    ensures Inv(host, complete, After(host, complete, s, steps))
    ensures CacheName(host, sha) in s.names ==> CacheName(host, sha) in After(host, complete, s, steps).names
    decreases |steps|
  {
    hide Inv, Do, Can, CacheName;
    if steps != [] {
      StepKeeps(host, complete, s, steps[0].0, steps[0].1);
      StepKeepsNames(host, complete, s, steps[0].0, steps[0].1, sha);
      RunKeeps(host, complete, Do(host, complete, s, steps[0].0, steps[0].1), steps[1..], sha);
    }
  }

  const EMPTY: System := System(map[], map[], map[])

  /** After any run of any processes, killed at any step: every name in the cache holds a whole build of its commit, and a
      take that has ended has nothing or a whole build. */
  lemma CacheNeverServesHalf(host: Host, complete: Complete, steps: seq<(nat, Action)>)
    requires ProperHost(host) && IsRun(host, complete, EMPTY, steps)
    ensures var s := After(host, complete, EMPTY, steps);
            && CacheWhole(host, complete, s)
            && forall pid :: pid in s.processes && s.processes[pid].Took? && s.processes[pid].copy.Some? ==>
                 complete(s.processes[pid].sha, s.processes[pid].copy.value)
  {
    RunKeeps(host, complete, EMPTY, steps, "");
    var s := After(host, complete, EMPTY, steps);
    forall pid | pid in s.processes && s.processes[pid].Took? && s.processes[pid].copy.Some?
      ensures complete(s.processes[pid].sha, s.processes[pid].copy.value)
    {
      assert ProcessOk(host, complete, s, pid);
    }
  }

  /** The process takes the build of `sha`: it has found it, is copying it, or has copied all of it. */
  predicate Takes(complete: Complete, s: System, pid: nat, sha: string) {
    pid in s.processes &&
    match s.processes[pid]
    case Found(sha') => sha' == sha
    case Reading(sha', _, _) => sha' == sha
    case Took(sha', copy) => sha' == sha && copy.Some? && complete(sha, copy.value)
    case _ => false
  }

  /** Nothing another process does, and no step of its own until it is done with it, takes that away. */
  lemma StepKeepsTake(host: Host, complete: Complete, s: System, pid: nat, a: Action, taker: nat, sha: string)
    requires ProperHost(host) && Inv(host, complete, s) && Can(host, complete, s, pid, a) && Takes(complete, s, taker, sha)
    requires pid == taker ==> !a.Next? && !a.Kill?
    ensures Takes(complete, Do(host, complete, s, pid, a), taker, sha)
  {
    hide CacheName, PartialName, OneNameEach, CacheWhole, Sealed;
    assert ProcessOk(host, complete, s, taker);
    if pid == taker && a.FinishTake? {
      assert s.processes[taker].got == s.files[s.processes[taker].file];
    }
  }

  lemma {:induction false} RunKeepsTake(host: Host, complete: Complete, s: System, steps: seq<(nat, Action)>, taker: nat, sha: string)
    requires ProperHost(host) && Inv(host, complete, s) && IsRun(host, complete, s, steps) && Takes(complete, s, taker, sha)
    requires (taker, Next) !in steps && (taker, Kill) !in steps
    ensures Takes(complete, After(host, complete, s, steps), taker, sha)
    decreases |steps|
  {
    hide Inv, Do, Can, Takes;
    if steps != [] {
      StepKeeps(host, complete, s, steps[0].0, steps[0].1);
      StepKeepsTake(host, complete, s, steps[0].0, steps[0].1, taker, sha);
      RunKeepsTake(host, complete, Do(host, complete, s, steps[0].0, steps[0].1), steps[1..], taker, sha);
    }
  }

  /** A build that was kept is found by every later take, whatever happens in between and afterwards; and until it goes on to
      something else, a take that has ended has a whole build. */
  lemma KeptIsFound(host: Host, complete: Complete, s: System, pid: nat, steps: seq<(nat, Action)>, taker: nat,
      later: seq<(nat, Action)>)
    requires ProperHost(host) && Inv(host, complete, s) && Can(host, complete, s, pid, Rename)
    requires IsRun(host, complete, Do(host, complete, s, pid, Rename), steps)
    ensures var sha, r := s.processes[pid].sha, After(host, complete, Do(host, complete, s, pid, Rename), steps);
            && CacheName(host, sha) in r.names
            && (Can(host, complete, r, taker, StartTake(sha)) ==>
                  var found := Do(host, complete, r, taker, StartTake(sha));
                  && found.processes[taker] == Found(sha)
                  && (IsRun(host, complete, found, later) && (taker, Next) !in later && (taker, Kill) !in later ==>
                        Takes(complete, After(host, complete, found, later), taker, sha)))
  {
    hide Inv, CacheName, PartialName, IsRun, After;
    var sha := s.processes[pid].sha;
    StepKeeps(host, complete, s, pid, Rename);
    RunKeeps(host, complete, Do(host, complete, s, pid, Rename), steps, sha);
    var r := After(host, complete, Do(host, complete, s, pid, Rename), steps);
    if Can(host, complete, r, taker, StartTake(sha)) {
      var found := Do(host, complete, r, taker, StartTake(sha));
      StepKeeps(host, complete, r, taker, StartTake(sha));
      if IsRun(host, complete, found, later) && (taker, Next) !in later && (taker, Kill) !in later {
        RunKeepsTake(host, complete, found, later, taker, sha);
      }
    }
  }
}
