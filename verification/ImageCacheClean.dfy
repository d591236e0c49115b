/** Paths that start absent or correct: one download at most, nothing removed, nobody disappointed. */
module ImageCacheClean {
  import opened Outcomes
  import opened ImageDigest
  import opened ImageCacheProtocol

  /** All callers of `path` want `digest`. */
  ghost predicate Shared(cfg: Config, path: CachePath, digest: string) {
    forall i | 0 <= i < |cfg.callers| && cfg.callers[i].path == path :: cfg.callers[i].digest == digest
  }

  ghost predicate AbsentOrCorrect(cfg: Config, files: map<CachePath, Bytes>, path: CachePath, digest: string) {
    path in files ==> cfg.hash(files[path]) == digest
  }

  /** What the program counter of a caller of `path` tells about the file. */
  ghost predicate PcClean(cfg: Config, s: State, pc: Pc, path: CachePath, digest: string) {
    match pc
    case Stat(Last) => path in s.files
    case Hashing(_, size) => path in s.files && size == |s.files[path]|
    case Removing(_) => false
    case Opening(_, size) => path in s.files && size == |s.files[path]|
    case Fetching(_) => path !in s.files
    case Committing(_, content) => path !in s.files && cfg.hash(content) == digest
    case Rechecking(_) => path !in s.files
    case Unmapping(c) => c < |s.calls| && (s.calls[c].err.None? ==> path in s.files)
    case Signalling(c) => c < |s.calls| && (s.calls[c].err.None? ==> path in s.files)
    case Finished(Reader(size, content)) =>
      path in s.files && content == s.files[path] && size == |content|
    case Finished(Failed(e)) => e != Missing
    case _ => true
  }

  ghost predicate CallClean(s: State, call: Call, path: CachePath) {
    && call.err != Some(Missing)
    && (call.key == path && call.done && call.err.None? ==> path in s.files)
  }

  /** The directory entry of `path` against its initial state and the two logs. */
  ghost predicate FileClean(cfg: Config, files: map<CachePath, Bytes>, s: State, path: CachePath, digest: string) {
    && path !in s.removals
    && (path in s.files ==> cfg.hash(s.files[path]) == digest)
    && (path in files ==> path in s.files && s.files[path] == files[path])
    && multiset(s.commits)[path] == (if path in s.files && path !in files then 1 else 0)
  }

  ghost predicate Clean(cfg: Config, files: map<CachePath, Bytes>, s: State, path: CachePath, digest: string) {
    && Coherent(cfg, s)
    && FileClean(cfg, files, s, path, digest)
    && (forall i | 0 <= i < |s.pcs| && cfg.callers[i].path == path :: PcClean(cfg, s, s.pcs[i], path, digest))
    && (forall c | 0 <= c < |s.calls| :: CallClean(s, s.calls[c], path))
  }

  lemma InitClean(cfg: Config, files: map<CachePath, Bytes>, path: CachePath, digest: string)
    requires AbsentOrCorrect(cfg, files, path, digest)
    ensures Clean(cfg, files, Init(cfg, files), path, digest)
  {
    InitCoherent(cfg, files);
  }

  /** How a step changes the directory and the logs. */
  lemma LogsAfterStep(cfg: Config, s: State, m: Move)
    requires Enabled(cfg, s, m)
    ensures
      var s', path := Step(cfg, s, m), cfg.callers[m.caller].path;
      && (s'.removals == s.removals || s'.removals == s.removals + [path])
      && (s'.commits == s.commits || s'.commits == s.commits + [path])
      && (forall other | other != path :: other in s'.files <==> other in s.files)
      && (forall other | other != path && other in s.files :: s'.files[other] == s.files[other])
  {
  }

  /** Nothing about `path` differs between the two states. */
  ghost predicate FileKept(s: State, s': State, path: CachePath) {
    && (path in s'.files <==> path in s.files)
    && (path in s.files ==> s'.files[path] == s.files[path])
    && (path in s'.removals <==> path in s.removals)
    && multiset(s'.commits)[path] == multiset(s.commits)[path]
  }

  lemma OtherFileKept(cfg: Config, s: State, m: Move, path: CachePath)
    requires Enabled(cfg, s, m) && cfg.callers[m.caller].path != path
    ensures FileKept(s, Step(cfg, s, m), path)
  {
    LogsAfterStep(cfg, s, m);
  }

  /** A step of a caller of another path leaves this path's file and its callers' facts alone. */
  lemma OtherPathClean(cfg: Config, files: map<CachePath, Bytes>, s: State, m: Move, path: CachePath, digest: string)
    requires Clean(cfg, files, s, path, digest) && Enabled(cfg, s, m) && cfg.callers[m.caller].path != path
    ensures Clean(cfg, files, Step(cfg, s, m), path, digest)
  {
    var s' := Step(cfg, s, m);
    StepCoherent(cfg, s, m);
    CallsAfterStep(cfg, s, m);
    OtherFileKept(cfg, s, m, path);
    forall i | 0 <= i < |s'.pcs| && cfg.callers[i].path == path
      ensures PcClean(cfg, s', s'.pcs[i], path, digest)
    {
      assert PcClean(cfg, s, s.pcs[i], path, digest);
      if s.pcs[i].Led().Some? {
        assert LeaderOk(s, i, s.pcs[i], path);
      }
      KeptPcClean(cfg, s, s', s.pcs[i], path, digest);
    }
    forall c | 0 <= c < |s'.calls| ensures CallClean(s', s'.calls[c], path) {
      if c < |s.calls| {
        assert CallClean(s, s.calls[c], path);
      }
    }
  }

  lemma KeptPcClean(cfg: Config, s: State, s': State, pc: Pc, path: CachePath, digest: string)
    requires PcClean(cfg, s, pc, path, digest) && FileKept(s, s', path)
    requires pc.Led().Some? ==>
               pc.Led().value < |s.calls| <= |s'.calls| && s'.calls[pc.Led().value] == s.calls[pc.Led().value]
    ensures PcClean(cfg, s', pc, path, digest)
  {
  }

  /** Only the mover's own call object changes, and only a call of the mover's path is created. */
  lemma CallsAfterStep(cfg: Config, s: State, m: Move)
    requires Coherent(cfg, s) && Enabled(cfg, s, m)
    ensures
      var s', path := Step(cfg, s, m), cfg.callers[m.caller].path;
      && |s.calls| <= |s'.calls|
      && (forall j | 0 <= j < |s.pcs| && j != m.caller :: s'.pcs[j] == s.pcs[j])
      && (forall c | 0 <= c < |s.calls| && s.calls[c].key != path :: s'.calls[c] == s.calls[c])
      && (forall c | 0 <= c < |s.calls| && s.pcs[m.caller].Led() != Some(c) :: s'.calls[c] == s.calls[c])
      && (forall c | |s.calls| <= c < |s'.calls| :: s'.calls[c] == Call(path, m.caller, None, false))
      && (forall c | 0 <= c < |s.calls| :: s'.calls[c].key == s.calls[c].key)
      && (forall c | 0 <= c < |s.calls| :: s'.calls[c].err == s.calls[c].err || s'.calls[c].err != Some(Missing))
  {
    if s.pcs[m.caller].Led().Some? {
      assert LeaderOk(s, m.caller, s.pcs[m.caller], cfg.callers[m.caller].path);
    }
  }

  /** The file after a step on this path: it only ever appears, and only by a rename. */
  lemma FileAfterCommit(cfg: Config, files: map<CachePath, Bytes>, s: State, m: Move, path: CachePath, digest: string)
    requires Clean(cfg, files, s, path, digest) && Enabled(cfg, s, m) && s.pcs[m.caller].Committing?
    requires cfg.callers[m.caller] == Caller(path, digest)
    ensures
      var s' := Step(cfg, s, m);
      FileClean(cfg, files, s', path, digest) && path !in s.files
  {
    assert PcClean(cfg, s, s.pcs[m.caller], path, digest);
  }

  lemma FileAfterQuietStep(cfg: Config, files: map<CachePath, Bytes>, s: State, m: Move, path: CachePath, digest: string)
    requires Clean(cfg, files, s, path, digest) && Enabled(cfg, s, m) && !s.pcs[m.caller].Committing?
    requires cfg.callers[m.caller] == Caller(path, digest)
    ensures
      var s' := Step(cfg, s, m);
      s'.files == s.files && s'.removals == s.removals && s'.commits == s.commits
  {
    assert PcClean(cfg, s, s.pcs[m.caller], path, digest);
  }

  lemma FileAfterStep(cfg: Config, files: map<CachePath, Bytes>, s: State, m: Move, path: CachePath, digest: string)
    requires Clean(cfg, files, s, path, digest) && Enabled(cfg, s, m)
    requires cfg.callers[m.caller] == Caller(path, digest)
    ensures
      var s' := Step(cfg, s, m);
      && FileClean(cfg, files, s', path, digest)
      && (path in s.files ==> path in s'.files && s'.files[path] == s.files[path])
      && (path in s'.files && path !in s.files ==> s.pcs[m.caller].Committing?)
  {
    if s.pcs[m.caller].Committing? {
      FileAfterCommit(cfg, files, s, m, path, digest);
    } else {
      FileAfterQuietStep(cfg, files, s, m, path, digest);
    }
  }

  lemma TryMoverClean(cfg: Config, s: State, m: Move, path: CachePath, digest: string)
    requires Coherent(cfg, s) && Enabled(cfg, s, m) && InTry(s.pcs[m.caller])
    requires cfg.callers[m.caller] == Caller(path, digest)
    requires PcClean(cfg, s, s.pcs[m.caller], path, digest)
    requires path in s.files ==> cfg.hash(s.files[path]) == digest
    ensures PcClean(cfg, Step(cfg, s, m), Step(cfg, s, m).pcs[m.caller], path, digest)
  {
  }

  lemma FlightMoverClean(cfg: Config, s: State, m: Move, path: CachePath, digest: string)
    requires Coherent(cfg, s) && Enabled(cfg, s, m) && !InTry(s.pcs[m.caller])
    requires cfg.callers[m.caller] == Caller(path, digest)
    requires PcClean(cfg, s, s.pcs[m.caller], path, digest)
    requires forall c | 0 <= c < |s.calls| :: CallClean(s, s.calls[c], path)
    ensures PcClean(cfg, Step(cfg, s, m), Step(cfg, s, m).pcs[m.caller], path, digest)
  {
    if s.pcs[m.caller].Waiting? {
      assert WaiterOk(s, s.pcs[m.caller].call, path);
    }
    if s.pcs[m.caller].Waiting? || s.pcs[m.caller].Signalling? {
      assert CallClean(s, s.calls[s.pcs[m.caller].call], path);
    }
  }

  lemma MoverClean(cfg: Config, files: map<CachePath, Bytes>, s: State, m: Move, path: CachePath, digest: string)
    requires Clean(cfg, files, s, path, digest) && Enabled(cfg, s, m)
    requires cfg.callers[m.caller] == Caller(path, digest)
    ensures |Step(cfg, s, m).pcs| == |s.pcs|
    ensures PcClean(cfg, Step(cfg, s, m), Step(cfg, s, m).pcs[m.caller], path, digest)
  {
    if InTry(s.pcs[m.caller]) {
      TryMoverClean(cfg, s, m, path, digest);
    } else {
      FlightMoverClean(cfg, s, m, path, digest);
    }
  }

  lemma SamePathClean(cfg: Config, files: map<CachePath, Bytes>, s: State, m: Move, path: CachePath, digest: string)
    requires Clean(cfg, files, s, path, digest) && Enabled(cfg, s, m)
    requires cfg.callers[m.caller] == Caller(path, digest)
    ensures Clean(cfg, files, Step(cfg, s, m), path, digest)
  {
    var s' := Step(cfg, s, m);
    StepCoherent(cfg, s, m);
    CallsAfterStep(cfg, s, m);
    FileAfterStep(cfg, files, s, m, path, digest);
    MoverClean(cfg, files, s, m, path, digest);
    forall i | 0 <= i < |s'.pcs| && cfg.callers[i].path == path
      ensures PcClean(cfg, s', s'.pcs[i], path, digest)
    {
      if i != m.caller {
        assert PcClean(cfg, s, s.pcs[i], path, digest);
        BystanderClean(cfg, s, s', m, i, path, digest);
      }
    }
    forall c | 0 <= c < |s'.calls| ensures CallClean(s', s'.calls[c], path) {
      DoneCallClean(cfg, files, s, m, c, path, digest);
    }
  }

  lemma BystanderClean(cfg: Config, s: State, s': State, m: Move, i: nat, path: CachePath, digest: string)
    requires Coherent(cfg, s) && Enabled(cfg, s, m) && s' == Step(cfg, s, m)
    requires i < |s.pcs| && i != m.caller && cfg.callers[i].path == path == cfg.callers[m.caller].path
    requires PcClean(cfg, s, s.pcs[i], path, digest)
    requires path in s.files ==> path in s'.files && s'.files[path] == s.files[path]
    requires path in s'.files && path !in s.files ==> s.pcs[m.caller].Committing?
    ensures PcClean(cfg, s', s.pcs[i], path, digest)
  {
    CallsAfterStep(cfg, s, m);
    if s.pcs[i].Led().Some? {
      assert LeaderOk(s, i, s.pcs[i], path);
    }
    if s.pcs[m.caller].Committing? {
      assert LeaderOk(s, m.caller, s.pcs[m.caller], path);
    }
  }

  lemma DoneCallClean(cfg: Config, files: map<CachePath, Bytes>, s: State, m: Move, c: nat, path: CachePath, digest: string)
    requires Clean(cfg, files, s, path, digest) && Enabled(cfg, s, m) && c < |Step(cfg, s, m).calls|
    requires cfg.callers[m.caller] == Caller(path, digest)
    ensures CallClean(Step(cfg, s, m), Step(cfg, s, m).calls[c], path)
  {
    CallsAfterStep(cfg, s, m);
    FileAfterStep(cfg, files, s, m, path, digest);
    MoverClean(cfg, files, s, m, path, digest);
    if c < |s.calls| {
      assert CallClean(s, s.calls[c], path);
      if s.pcs[m.caller].Led() == Some(c) {
        assert LeaderOk(s, m.caller, s.pcs[m.caller], path);
        assert PcClean(cfg, s, s.pcs[m.caller], path, digest);
      }
    }
  }

  lemma {:induction false} RunClean(cfg: Config, files: map<CachePath, Bytes>, s: State, ms: seq<Move>,
                                    path: CachePath, digest: string)
    requires Shared(cfg, path, digest) && Clean(cfg, files, s, path, digest) && ValidRun(cfg, s, ms)
    ensures Clean(cfg, files, Run(cfg, s, ms), path, digest)
    decreases |ms|
  {
    if ms != [] {
      var caller := cfg.callers[ms[0].caller];
      if caller.path == path {
        SamePathClean(cfg, files, s, ms[0], path, digest);
      } else {
        OtherPathClean(cfg, files, s, ms[0], path, digest);
      }
      RunClean(cfg, files, Step(cfg, s, ms[0]), ms[1..], path, digest);
    }
  }

  /** A path that starts absent or correct: over every interleaving at most one download is renamed
      into it, none if it was there; nothing is removed; no caller finds its image missing after a
      download; and every reader gets the one file, with its true size. */
  lemma CleanPathsStayClean(cfg: Config, files: map<CachePath, Bytes>, ms: seq<Move>, path: CachePath, digest: string)
    requires Shared(cfg, path, digest) && AbsentOrCorrect(cfg, files, path, digest)
    requires ValidRun(cfg, Init(cfg, files), ms)
    ensures
      var s := Run(cfg, Init(cfg, files), ms);
      && |s.pcs| == |cfg.callers|
      && multiset(s.commits)[path] <= (if path in files then 0 else 1)
      && path !in s.removals
      && forall i | 0 <= i < |s.pcs| && cfg.callers[i].path == path && s.pcs[i].Finished? ::
           match s.pcs[i].outcome
           case Failed(e) => e != Missing
           case Reader(size, content) => path in s.files && content == s.files[path] && size == |content|
  {
    InitClean(cfg, files, path, digest);
    RunClean(cfg, files, Init(cfg, files), ms, path, digest);
    var s := Run(cfg, Init(cfg, files), ms);
    forall i | 0 <= i < |s.pcs| && cfg.callers[i].path == path && s.pcs[i].Finished?
      ensures match s.pcs[i].outcome
              case Failed(e) => e != Missing
              case Reader(size, content) => path in s.files && content == s.files[path] && size == |content|
    {
      assert PcClean(cfg, s, s.pcs[i], path, digest);
    }
  }
}
