/** No deadlock, bounded runs, and what can go wrong when a path starts with a stale file. */
module ImageCacheProgress {
  import opened Outcomes
  import opened ImageDigest
  import opened ImageCacheProtocol
  import opened ImageCacheClean

  // ----- Progress -----

  function PhaseRank(phase: Phase): nat {
    match phase
    case Last => 0
    case Leading(_) => 8
    case First => 12
  }

  /** An upper bound on the steps a caller still takes. */
  function Rank(pc: Pc): nat {
    match pc
    case Finished(_) => 0
    case Stat(phase) => PhaseRank(phase) + 3
    case Hashing(phase, _) => PhaseRank(phase) + 2
    case Removing(phase) => PhaseRank(phase) + 1
    case Opening(phase, _) => PhaseRank(phase) + 1
    case Waiting(_) => 4
    case Signalling(_) => 4
    case Unmapping(_) => 5
    case Rechecking(_) => 6
    case Committing(_, _) => 7
    case Fetching(_) => 8
    case Entering => 12
  }

  function TotalRank(pcs: seq<Pc>): nat {
    if pcs == [] then 0 else Rank(pcs[0]) + TotalRank(pcs[1..])
  }

  lemma {:induction false} TotalRankUpdate(pcs: seq<Pc>, i: nat, pc: Pc)
    requires i < |pcs|
    ensures TotalRank(pcs[i := pc]) == TotalRank(pcs) - Rank(pcs[i]) + Rank(pc)
  {
    if i == 0 {
      assert pcs[i := pc][1..] == pcs[1..];
    } else {
      assert pcs[i := pc][1..] == pcs[1..][i - 1 := pc];
      TotalRankUpdate(pcs[1..], i - 1, pc);
    }
  }

  lemma {:induction false} TotalRankBound(pcs: seq<Pc>)
    ensures TotalRank(pcs) <= 15 * |pcs|
  {
    if pcs != [] {
      TotalRankBound(pcs[1..]);
    }
  }

  lemma TryRankDrops(cfg: Config, s: State, m: Move)
    requires Enabled(cfg, s, m) && InTry(s.pcs[m.caller])
    ensures var s' := Step(cfg, s, m);
            && |s'.pcs| == |s.pcs| && s'.pcs == s.pcs[m.caller := s'.pcs[m.caller]]
            && Rank(s'.pcs[m.caller]) < Rank(s.pcs[m.caller])
  {
  }

  lemma FlightRankDrops(cfg: Config, s: State, m: Move)
    requires Enabled(cfg, s, m) && !InTry(s.pcs[m.caller])
    ensures var s' := Step(cfg, s, m);
            && |s'.pcs| == |s.pcs| && s'.pcs == s.pcs[m.caller := s'.pcs[m.caller]]
            && Rank(s'.pcs[m.caller]) < Rank(s.pcs[m.caller])
  {
  }

  /** Every step brings its caller, and so all callers together, closer to the end. */
  lemma StepRank(cfg: Config, s: State, m: Move)
    requires Enabled(cfg, s, m)
    ensures TotalRank(Step(cfg, s, m).pcs) < TotalRank(s.pcs)
  {
    if InTry(s.pcs[m.caller]) {
      TryRankDrops(cfg, s, m);
    } else {
      FlightRankDrops(cfg, s, m);
    }
    TotalRankUpdate(s.pcs, m.caller, Step(cfg, s, m).pcs[m.caller]);
  }

  lemma {:induction false} RunRank(cfg: Config, s: State, ms: seq<Move>)
    requires ValidRun(cfg, s, ms)
    ensures |ms| + TotalRank(Run(cfg, s, ms).pcs) <= TotalRank(s.pcs)
    decreases |ms|
  {
    if ms != [] {
      StepRank(cfg, s, ms[0]);
      RunRank(cfg, Step(cfg, s, ms[0]), ms[1..]);
    }
  }

  /** n callers finish within 15 n steps, whatever the interleaving. */
  lemma BoundedRuns(cfg: Config, files: map<CachePath, Bytes>, ms: seq<Move>)
    requires ValidRun(cfg, Init(cfg, files), ms)
    ensures |ms| <= 15 * |cfg.callers|
  {
    RunRank(cfg, Init(cfg, files), ms);
    TotalRankBound(Init(cfg, files).pcs);
  }

  ghost predicate Quiet(cfg: Config, s: State) {
    forall m :: !Enabled(cfg, s, m)
  }

  /** While some caller is unfinished some step is enabled: a waiter's call still has its leader,
      and a leader never waits. */
  lemma NoDeadlock(cfg: Config, files: map<CachePath, Bytes>, ms: seq<Move>)
    requires ValidRun(cfg, Init(cfg, files), ms)
    ensures
      var s := Run(cfg, Init(cfg, files), ms);
      && |s.pcs| == |cfg.callers|
      && (Quiet(cfg, s) <==> forall i | 0 <= i < |s.pcs| :: s.pcs[i].Finished?)
  {
    InitCoherent(cfg, files);
    RunCoherent(cfg, Init(cfg, files), ms);
    var s := Run(cfg, Init(cfg, files), ms);
    forall i | 0 <= i < |s.pcs| && !s.pcs[i].Finished? ensures !Quiet(cfg, s) {
      var j := i;
      if s.pcs[i].Waiting? {
        assert WaiterOk(s, s.pcs[i].call, cfg.callers[i].path);
        if !s.calls[s.pcs[i].call].done {
          assert CallOk(s, s.pcs[i].call);
          j := s.calls[s.pcs[i].call].leader;
        }
      }
      if s.pcs[j].Led().Some? {
        assert LeaderOk(s, j, s.pcs[j], cfg.callers[j].path);
      }
      assert Enabled(cfg, s, Move(j, if s.pcs[j].Fetching? then Fault else Proceed));
    }
  }

  // ----- A stale file at the start -----

  ghost predicate Reaches(cfg: Config, s: State, t: State) {
    exists ms :: ValidRun(cfg, s, ms) && Run(cfg, s, ms) == t
  }

  lemma ReachesItself(cfg: Config, s: State)
    ensures Reaches(cfg, s, s)
  {
    assert ValidRun(cfg, s, []);
  }

  lemma {:induction false} RunSnoc(cfg: Config, s: State, ms: seq<Move>, m: Move)
    requires ValidRun(cfg, s, ms) && Enabled(cfg, Run(cfg, s, ms), m)
    ensures ValidRun(cfg, s, ms + [m]) && Run(cfg, s, ms + [m]) == Step(cfg, Run(cfg, s, ms), m)
    decreases |ms|
  {
    if ms == [] {
      assert ms + [m] == [m] && [m][1..] == [];
      assert ValidRun(cfg, Step(cfg, s, m), []);
    } else {
      RunSnoc(cfg, Step(cfg, s, ms[0]), ms[1..], m);
      assert (ms + [m])[1..] == ms[1..] + [m];
    }
  }

  lemma ReachesOneMore(cfg: Config, s: State, t: State, m: Move)
    requires Reaches(cfg, s, t) && Enabled(cfg, t, m)
    ensures Reaches(cfg, s, Step(cfg, t, m))
  {
    var ms :| ValidRun(cfg, s, ms) && Run(cfg, s, ms) == t;
    RunSnoc(cfg, s, ms, m);
    assert ValidRun(cfg, s, ms + [m]);
  }

  /** The scene of both races: callers `a` and `b` share a path with a stale file. */
  ghost predicate StaleScene(cfg: Config, files: map<CachePath, Bytes>, a: nat, b: nat, good: Bytes) {
    && a < |cfg.callers| && b < |cfg.callers| && a != b && cfg.callers[a] == cfg.callers[b]
    && cfg.callers[a].path in files && cfg.hash(files[cfg.callers[a].path]) != cfg.callers[a].digest
    && cfg.hash(good) == cfg.callers[a].digest
  }

  ghost function StaleRemoved(cfg: Config, s: State, b: nat): State
    requires WellSized(cfg, s) && b < |s.pcs|
  {
    var path := cfg.callers[b].path;
    s.(pcs := s.pcs[b := Entering], files := s.files - {path}, removals := s.removals + [path])
  }

  lemma RemoveAlone(cfg: Config, start: State, s: State, b: nat)
    requires Reaches(cfg, start, s) && WellSized(cfg, s) && b < |s.pcs| && s.pcs[b] == Stat(First)
    requires cfg.callers[b].path in s.files && cfg.hash(s.files[cfg.callers[b].path]) != cfg.callers[b].digest
    ensures Reaches(cfg, start, StaleRemoved(cfg, s, b))
  {
    ReachesOneMore(cfg, start, s, Move(b, Proceed));
    var s1 := s.(pcs := s.pcs[b := Hashing(First, |s.files[cfg.callers[b].path]|)]);
    assert s1 == Step(cfg, s, Move(b, Proceed));
    ReachesOneMore(cfg, start, s1, Move(b, Proceed));
    var s2 := s.(pcs := s.pcs[b := Removing(First)]);
    assert s2 == Step(cfg, s1, Move(b, Proceed));
    ReachesOneMore(cfg, start, s2, Move(b, Proceed));
    assert StaleRemoved(cfg, s, b) == Step(cfg, s2, Move(b, Proceed));
  }

  /** `b` alone finds the stale file, removes it, leads a flight and renames a good download in place,
      while every other caller is where it was. */
  lemma InstallAlone(cfg: Config, start: State, s: State, b: nat, good: Bytes)
    requires Reaches(cfg, start, s) && WellSized(cfg, s) && b < |s.pcs| && s.pcs[b] == Stat(First)
    requires cfg.callers[b].path !in s.inflight
    requires cfg.callers[b].path in s.files && cfg.hash(s.files[cfg.callers[b].path]) != cfg.callers[b].digest
    requires cfg.hash(good) == cfg.callers[b].digest
    ensures Reaches(cfg, start, Installed(cfg, s, b, good))
  {
    var path, c := cfg.callers[b].path, |s.calls|;
    RemoveAlone(cfg, start, s, b);
    var s3 := StaleRemoved(cfg, s, b);
    ReachesOneMore(cfg, start, s3, Move(b, Proceed));
    var s4 := s3.(pcs := s.pcs[b := Stat(Leading(c))], calls := s.calls + [Call(path, b, None, false)],
                  inflight := s.inflight[path := c]);
    assert s4 == Step(cfg, s3, Move(b, Proceed));
    ReachesOneMore(cfg, start, s4, Move(b, Proceed));
    var s5 := s4.(pcs := s.pcs[b := Fetching(c)]);
    assert s5 == Step(cfg, s4, Move(b, Proceed));
    ReachesOneMore(cfg, start, s5, Move(b, Fetched(good)));
    var s6 := s4.(pcs := s.pcs[b := Committing(c, good)]);
    assert s6 == Step(cfg, s5, Move(b, Fetched(good)));
    ReachesOneMore(cfg, start, s6, Move(b, Proceed));
    assert Installed(cfg, s, b, good) == Step(cfg, s6, Move(b, Proceed));
  }

  ghost function Installed(cfg: Config, s: State, b: nat, good: Bytes): State
    requires WellSized(cfg, s) && b < |s.pcs|
  {
    var path, c := cfg.callers[b].path, |s.calls|;
    s.(pcs := s.pcs[b := Unmapping(c)],
       calls := s.calls + [Call(path, b, None, false)],
       inflight := s.inflight[path := c],
       files := (s.files - {path})[path := good],
       removals := s.removals + [path],
       commits := s.commits + [path])
  }

  /** A caller that saw the stale file removes the good one another caller has just installed, and that
      caller, whose flight returned nil, finds its image missing. */
  lemma StaleFileGoesMissing(cfg: Config, files: map<CachePath, Bytes>, a: nat, b: nat, good: Bytes)
    requires StaleScene(cfg, files, a, b, good)
    ensures exists s :: && Reaches(cfg, Init(cfg, files), s) && |s.pcs| == |s.flights| == |cfg.callers|
                        && s.pcs[b] == Finished(Failed(Missing)) && s.flights[b] == Some((0, None))
  {
    var path := cfg.callers[a].path;
    var stale := files[path];
    var s0 := Init(cfg, files);
    ReachesItself(cfg, s0);
    ReachesOneMore(cfg, s0, s0, Move(a, Proceed));
    var s1 := s0.(pcs := s0.pcs[a := Hashing(First, |stale|)]);
    assert s1 == Step(cfg, s0, Move(a, Proceed));
    ReachesOneMore(cfg, s0, s1, Move(a, Proceed));
    var s2 := s0.(pcs := s0.pcs[a := Removing(First)]);
    assert s2 == Step(cfg, s1, Move(a, Proceed));
    InstallAlone(cfg, s0, s2, b, good);
    var t := Installed(cfg, s2, b, good);
    RemoveAfterInstall(cfg, s0, t, a, b);
  }

  lemma RemoveAfterInstall(cfg: Config, start: State, t: State, a: nat, b: nat)
    requires Reaches(cfg, start, t) && WellSized(cfg, t) && a < |t.pcs| && b < |t.pcs| && a != b
    requires cfg.callers[a] == cfg.callers[b]
    requires t.pcs[a] == Removing(First) && t.pcs[b] == Unmapping(0)
    requires |t.calls| == 1 && t.calls[0].err.None?
    ensures exists s :: && Reaches(cfg, start, s) && |s.pcs| == |s.flights| == |cfg.callers|
                        && s.pcs[b] == Finished(Failed(Missing)) && s.flights[b] == Some((0, None))
  {
    ReachesOneMore(cfg, start, t, Move(b, Proceed));
    var t1 := Step(cfg, t, Move(b, Proceed));
    ReachesOneMore(cfg, start, t1, Move(b, Proceed));
    var t2 := Step(cfg, t1, Move(b, Proceed));
    ReachesOneMore(cfg, start, t2, Move(a, Proceed));
    var t3 := Step(cfg, t2, Move(a, Proceed));
    ReachesOneMore(cfg, start, t3, Move(b, Proceed));
    var t4 := Step(cfg, t3, Move(b, Proceed));
    assert t4.pcs[b] == Finished(Failed(Missing));
  }

  /** The size a reader is told comes from the earlier stat: a caller that saw the stale file's size can
      open the file another caller has installed since. */
  lemma StaleSizeReported(cfg: Config, files: map<CachePath, Bytes>, a: nat, b: nat, good: Bytes)
    requires StaleScene(cfg, files, a, b, good) && |good| != |files[cfg.callers[a].path]|
    ensures exists s :: && Reaches(cfg, Init(cfg, files), s) && |s.pcs| == |cfg.callers|
                        && s.pcs[a] == Finished(Reader(|files[cfg.callers[a].path]|, good))
                        && s.pcs[a].outcome.size != |s.pcs[a].outcome.content|
  {
    var path := cfg.callers[a].path;
    var stale := files[path];
    var s0 := Init(cfg, files);
    ReachesItself(cfg, s0);
    ReachesOneMore(cfg, s0, s0, Move(a, Proceed));
    var s1 := s0.(pcs := s0.pcs[a := Hashing(First, |stale|)]);
    assert s1 == Step(cfg, s0, Move(a, Proceed));
    InstallAlone(cfg, s0, s1, b, good);
    var t := Installed(cfg, s1, b, good);
    ReachesOneMore(cfg, s0, t, Move(a, Proceed));
    var t1 := t.(pcs := t.pcs[a := Opening(First, |stale|)]);
    assert t1 == Step(cfg, t, Move(a, Proceed));
    ReachesOneMore(cfg, s0, t1, Move(a, Proceed));
    assert Step(cfg, t1, Move(a, Proceed)).pcs[a] == Finished(Reader(|stale|, good));
  }
}
