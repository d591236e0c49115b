/** When exactly a stale file can hurt: an image missing after its download, and a size that is not the size of
    the content. */
module ImageCacheExact {
  import opened Outcomes
  import opened ImageDigest
  import opened ImageCacheProtocol
  import opened ImageCacheSafety
  import opened ImageCacheClean
  import opened ImageCacheProgress

  /** No other caller shares the path of `a`. */
  ghost predicate Sole(cfg: Config, a: nat)
    requires a < |cfg.callers|
  {
    forall j | 0 <= j < |cfg.callers| && cfg.callers[j].path == cfg.callers[a].path :: j == a
  }

  // ----- A caller that is alone on its path -----

  ghost predicate FileRight(cfg: Config, s: State, caller: Caller) {
    caller.path in s.files && cfg.hash(s.files[caller.path]) == caller.digest
  }

  /** What the program counter of the only caller of a path tells about the file. */
  ghost predicate PcAlone(cfg: Config, s: State, pc: Pc, caller: Caller) {
    match pc
    case Stat(phase) => phase.Last? ==> FileRight(cfg, s, caller)
    case Hashing(phase, size) =>
      && caller.path in s.files && size == |s.files[caller.path]|
      && (phase.Last? ==> FileRight(cfg, s, caller))
    case Removing(phase) => !phase.Last?
    case Opening(_, size) => FileRight(cfg, s, caller) && size == |s.files[caller.path]|
    case Waiting(_) => false
    case Fetching(_) => caller.path !in s.files
    case Committing(_, content) => caller.path !in s.files && cfg.hash(content) == caller.digest
    case Rechecking(_) => caller.path !in s.files
    case Unmapping(c) => CallAlone(cfg, s, c, caller)
    case Signalling(c) => CallAlone(cfg, s, c, caller)
    case Finished(Failed(e)) => e != Missing
    case Finished(Reader(size, content)) => size == |content|
    case Entering => true
  }

  ghost predicate CallAlone(cfg: Config, s: State, c: nat, caller: Caller) {
    c < |s.calls| && s.calls[c].err != Some(Missing) && (s.calls[c].err.None? ==> FileRight(cfg, s, caller))
  }

  ghost predicate Alone(cfg: Config, s: State, a: nat)
    requires a < |cfg.callers|
  {
    Coherent(cfg, s) && PcAlone(cfg, s, s.pcs[a], cfg.callers[a])
  }

  /** There is no flight for the path of an only caller that leads none. */
  lemma NoFlight(cfg: Config, s: State, a: nat)
    requires a < |cfg.callers| && Sole(cfg, a) && Coherent(cfg, s) && s.pcs[a].Led().None?
    ensures cfg.callers[a].path !in s.inflight
  {
    FlightGroupExclusive(cfg, s, cfg.callers[a].path);
  }

  lemma OwnTryAlone(cfg: Config, s: State, m: Move)
    requires Enabled(cfg, s, m) && InTry(s.pcs[m.caller])
    requires PcAlone(cfg, s, s.pcs[m.caller], cfg.callers[m.caller])
    ensures PcAlone(cfg, Step(cfg, s, m), Step(cfg, s, m).pcs[m.caller], cfg.callers[m.caller])
  {
  }

  lemma OwnFlightAlone(cfg: Config, s: State, m: Move)
    requires Enabled(cfg, s, m) && !InTry(s.pcs[m.caller])
    requires PcAlone(cfg, s, s.pcs[m.caller], cfg.callers[m.caller])
    requires s.pcs[m.caller].Entering? ==> cfg.callers[m.caller].path !in s.inflight
    ensures PcAlone(cfg, Step(cfg, s, m), Step(cfg, s, m).pcs[m.caller], cfg.callers[m.caller])
  {
  }

  /** A step of another caller touches neither the file nor the call. */
  lemma OtherAlone(cfg: Config, s: State, m: Move, a: nat)
    requires a < |cfg.callers| && Alone(cfg, s, a) && Enabled(cfg, s, m)
    requires cfg.callers[m.caller].path != cfg.callers[a].path
    ensures PcAlone(cfg, Step(cfg, s, m), Step(cfg, s, m).pcs[a], cfg.callers[a])
  {
    CallsAfterStep(cfg, s, m);
    OtherFileKept(cfg, s, m, cfg.callers[a].path);
    if s.pcs[a].Led().Some? {
      assert LeaderOk(s, a, s.pcs[a], cfg.callers[a].path);
    }
  }

  lemma {:induction false} RunAlone(cfg: Config, s: State, ms: seq<Move>, a: nat)
    requires a < |cfg.callers| && Sole(cfg, a) && Alone(cfg, s, a) && ValidRun(cfg, s, ms)
    ensures Alone(cfg, Run(cfg, s, ms), a)
    decreases |ms|
  {
    if ms != [] {
      var m := ms[0];
      StepCoherent(cfg, s, m);
      if m.caller != a {
        OtherAlone(cfg, s, m, a);
      } else if InTry(s.pcs[a]) {
        OwnTryAlone(cfg, s, m);
      } else {
        if s.pcs[a].Entering? {
          NoFlight(cfg, s, a);
        }
        OwnFlightAlone(cfg, s, m);
      }
      RunAlone(cfg, Step(cfg, s, m), ms[1..], a);
    }
  }

  // ----- A digest that nothing has -----

  /** No call of the path ends without an error, and so no caller gets past its flight. */
  ghost predicate PcNever(s: State, pc: Pc) {
    match pc
    case Stat(phase) => !phase.Last?
    case Hashing(phase, _) => !phase.Last?
    case Removing(phase) => !phase.Last?
    case Opening(_, _) => false
    case Committing(_, _) => false
    case Rechecking(_) => false
    case Unmapping(c) => c < |s.calls| && Fails(s.calls[c])
    case Signalling(c) => c < |s.calls| && Fails(s.calls[c])
    case Finished(outcome) => outcome.Failed? && outcome.error != Missing
    case _ => true
  }

  predicate Fails(call: Call) {
    call.err.Some? && call.err.value != Missing
  }

  ghost predicate Never(cfg: Config, s: State, path: CachePath) {
    && Coherent(cfg, s)
    && (forall i | 0 <= i < |s.pcs| && cfg.callers[i].path == path :: PcNever(s, s.pcs[i]))
    && (forall c | 0 <= c < |s.calls| && s.calls[c].key == path && s.calls[c].done :: Fails(s.calls[c]))
  }

  lemma MoverNever(cfg: Config, s: State, m: Move, path: CachePath, digest: string)
    requires Never(cfg, s, path) && Enabled(cfg, s, m) && cfg.callers[m.caller] == Caller(path, digest)
    requires !IsHash(cfg, digest)
    ensures |Step(cfg, s, m).pcs| == |s.pcs| && PcNever(Step(cfg, s, m), Step(cfg, s, m).pcs[m.caller])
  {
    var pc := s.pcs[m.caller];
    assert PcNever(s, pc);
    if pc.Waiting? {
      assert WaiterOk(s, pc.call, path);
    }
    assert forall content :: cfg.hash(content) != digest;
  }

  lemma OthersNever(cfg: Config, s: State, m: Move, i: nat, path: CachePath)
    requires Never(cfg, s, path) && Enabled(cfg, s, m) && i < |s.pcs| && i != m.caller && cfg.callers[i].path == path
    ensures |Step(cfg, s, m).pcs| == |s.pcs| && PcNever(Step(cfg, s, m), Step(cfg, s, m).pcs[i])
  {
    CallsAfterStep(cfg, s, m);
    assert PcNever(s, s.pcs[i]);
    LedApart(cfg, s, i, m.caller);
  }

  lemma LedApart(cfg: Config, s: State, i: nat, j: nat)
    requires Coherent(cfg, s) && i < |s.pcs| && j < |s.pcs| && i != j
    ensures s.pcs[i].Led().Some? ==> s.pcs[j].Led() != s.pcs[i].Led()
  {
    if s.pcs[i].Led().Some? {
      assert LeaderOk(s, i, s.pcs[i], cfg.callers[i].path);
    }
    if s.pcs[j].Led().Some? {
      assert LeaderOk(s, j, s.pcs[j], cfg.callers[j].path);
    }
  }

  lemma CallsNever(cfg: Config, s: State, m: Move, c: nat, path: CachePath)
    requires Never(cfg, s, path) && Enabled(cfg, s, m) && c < |Step(cfg, s, m).calls|
    requires Step(cfg, s, m).calls[c].key == path && Step(cfg, s, m).calls[c].done
    ensures Fails(Step(cfg, s, m).calls[c])
  {
    CallsAfterStep(cfg, s, m);
    if s.pcs[m.caller].Led() == Some(c) {
      assert LeaderOk(s, m.caller, s.pcs[m.caller], cfg.callers[m.caller].path);
      assert PcNever(s, s.pcs[m.caller]);
    }
  }

  lemma {:induction false} RunNever(cfg: Config, s: State, ms: seq<Move>, path: CachePath, digest: string)
    requires Shared(cfg, path, digest) && !IsHash(cfg, digest) && Never(cfg, s, path) && ValidRun(cfg, s, ms)
    ensures Never(cfg, Run(cfg, s, ms), path)
    decreases |ms|
  {
    if ms != [] {
      var m := ms[0];
      var s' := Step(cfg, s, m);
      StepCoherent(cfg, s, m);
      forall i | 0 <= i < |s'.pcs| && cfg.callers[i].path == path ensures PcNever(s', s'.pcs[i]) {
        if i == m.caller {
          MoverNever(cfg, s, m, path, digest);
        } else {
          OthersNever(cfg, s, m, i, path);
        }
      }
      forall c | 0 <= c < |s'.calls| && s'.calls[c].key == path && s'.calls[c].done ensures Fails(s'.calls[c]) {
        CallsNever(cfg, s, m, c, path);
      }
      RunNever(cfg, s', ms[1..], path, digest);
    }
  }

  // ----- One length for everything with the digest -----

  /** Everything that has the digest is as long as the file at the start. */
  ghost predicate OneLength(cfg: Config, digest: string, length: nat) {
    forall content :: cfg.hash(content) == digest ==> |content| == length
  }

  ghost predicate PcLong(cfg: Config, pc: Pc, digest: string, length: nat) {
    match pc
    case Hashing(_, size) => size == length
    case Opening(_, size) => size == length
    case Committing(_, content) => cfg.hash(content) == digest
    case Finished(Reader(size, content)) => size == length == |content|
    case _ => true
  }

  ghost predicate Long(cfg: Config, s: State, path: CachePath, digest: string, length: nat) {
    && WellSized(cfg, s)
    && (path in s.files ==> |s.files[path]| == length)
    && (forall i | 0 <= i < |s.pcs| && cfg.callers[i].path == path :: PcLong(cfg, s.pcs[i], digest, length))
  }

  lemma MoverTryLong(cfg: Config, s: State, m: Move, path: CachePath, digest: string, length: nat)
    requires OneLength(cfg, digest, length) && Enabled(cfg, s, m) && cfg.callers[m.caller] == Caller(path, digest)
    requires (path in s.files ==> |s.files[path]| == length) && PcLong(cfg, s.pcs[m.caller], digest, length)
    requires InTry(s.pcs[m.caller])
    ensures
      var s' := Step(cfg, s, m);
      && |s'.pcs| == |s.pcs| && PcLong(cfg, s'.pcs[m.caller], digest, length)
      && (path in s'.files ==> |s'.files[path]| == length)
  {
  }

  lemma MoverFlightLong(cfg: Config, s: State, m: Move, path: CachePath, digest: string, length: nat)
    requires OneLength(cfg, digest, length) && Enabled(cfg, s, m) && cfg.callers[m.caller] == Caller(path, digest)
    requires (path in s.files ==> |s.files[path]| == length) && PcLong(cfg, s.pcs[m.caller], digest, length)
    requires !InTry(s.pcs[m.caller])
    ensures
      var s' := Step(cfg, s, m);
      && |s'.pcs| == |s.pcs| && PcLong(cfg, s'.pcs[m.caller], digest, length)
      && (path in s'.files ==> |s'.files[path]| == length)
  {
  }

  lemma MoverLong(cfg: Config, s: State, m: Move, path: CachePath, digest: string, length: nat)
    requires OneLength(cfg, digest, length) && Enabled(cfg, s, m) && cfg.callers[m.caller] == Caller(path, digest)
    requires (path in s.files ==> |s.files[path]| == length) && PcLong(cfg, s.pcs[m.caller], digest, length)
    ensures
      var s' := Step(cfg, s, m);
      && |s'.pcs| == |s.pcs| && PcLong(cfg, s'.pcs[m.caller], digest, length)
      && (path in s'.files ==> |s'.files[path]| == length)
  {
    if InTry(s.pcs[m.caller]) {
      MoverTryLong(cfg, s, m, path, digest, length);
    } else {
      MoverFlightLong(cfg, s, m, path, digest, length);
    }
  }

  lemma StepLong(cfg: Config, s: State, m: Move, path: CachePath, digest: string, length: nat)
    requires Shared(cfg, path, digest) && OneLength(cfg, digest, length)
    requires Long(cfg, s, path, digest, length) && Enabled(cfg, s, m)
    ensures Long(cfg, Step(cfg, s, m), path, digest, length)
  {
    var s' := Step(cfg, s, m);
    OnlyMover(cfg, s, m);
    if cfg.callers[m.caller].path == path {
      MoverLong(cfg, s, m, path, digest, length);
    } else {
      LogsAfterStep(cfg, s, m);
    }
    forall i | 0 <= i < |s'.pcs| && cfg.callers[i].path == path ensures PcLong(cfg, s'.pcs[i], digest, length) {
      assert PcLong(cfg, s.pcs[i], digest, length);
    }
  }

  lemma OnlyMover(cfg: Config, s: State, m: Move)
    requires Enabled(cfg, s, m)
    ensures WellSized(cfg, Step(cfg, s, m))
    ensures forall j | 0 <= j < |s.pcs| && j != m.caller :: Step(cfg, s, m).pcs[j] == s.pcs[j]
  {
  }

  lemma {:induction false} RunLong(cfg: Config, s: State, ms: seq<Move>, path: CachePath, digest: string, length: nat)
    requires Shared(cfg, path, digest) && OneLength(cfg, digest, length)
    requires Long(cfg, s, path, digest, length) && ValidRun(cfg, s, ms)
    ensures Long(cfg, Run(cfg, s, ms), path, digest, length)
    decreases |ms|
  {
    if ms != [] {
      StepLong(cfg, s, ms[0], path, digest, length);
      RunLong(cfg, Step(cfg, s, ms[0]), ms[1..], path, digest, length);
    }
  }

  // ----- The two exact conditions -----

  /** Over every interleaving no caller of the path finds its image missing after a download. */
  ghost predicate NeverMissing(cfg: Config, files: map<CachePath, Bytes>, path: CachePath) {
    forall s, i | Reaches(cfg, Init(cfg, files), s) && 0 <= i < |s.pcs| == |cfg.callers|
                  && cfg.callers[i].path == path ::
      s.pcs[i] != Finished(Failed(Missing))
  }

  /** Over every interleaving every reader of the path is told the size of its content. */
  ghost predicate SizesTrue(cfg: Config, files: map<CachePath, Bytes>, path: CachePath) {
    forall s, i | Reaches(cfg, Init(cfg, files), s) && 0 <= i < |s.pcs| == |cfg.callers|
                  && cfg.callers[i].path == path && s.pcs[i].Finished? && s.pcs[i].outcome.Reader? ::
      s.pcs[i].outcome.size == |s.pcs[i].outcome.content|
  }

  lemma Neighbour(cfg: Config, a: nat) returns (b: nat)
    requires a < |cfg.callers| && !Sole(cfg, a) && Shared(cfg, cfg.callers[a].path, cfg.callers[a].digest)
    ensures b < |cfg.callers| && b != a && cfg.callers[b] == cfg.callers[a]
  {
    b :| 0 <= b < |cfg.callers| && cfg.callers[b].path == cfg.callers[a].path && b != a;
  }

  lemma SoleIsFine(cfg: Config, files: map<CachePath, Bytes>, a: nat)
    requires a < |cfg.callers| && Sole(cfg, a)
    ensures NeverMissing(cfg, files, cfg.callers[a].path) && SizesTrue(cfg, files, cfg.callers[a].path)
  {
    InitCoherent(cfg, files);
    forall s | Reaches(cfg, Init(cfg, files), s) ensures Alone(cfg, s, a) {
      var ms :| ValidRun(cfg, Init(cfg, files), ms) && Run(cfg, Init(cfg, files), ms) == s;
      RunAlone(cfg, Init(cfg, files), ms, a);
    }
  }

  lemma CleanIsFine(cfg: Config, files: map<CachePath, Bytes>, path: CachePath, digest: string)
    requires Shared(cfg, path, digest) && AbsentOrCorrect(cfg, files, path, digest)
    ensures NeverMissing(cfg, files, path) && SizesTrue(cfg, files, path)
  {
    forall s, i | Reaches(cfg, Init(cfg, files), s) && 0 <= i < |s.pcs| == |cfg.callers| && cfg.callers[i].path == path
      ensures s.pcs[i] != Finished(Failed(Missing))
      ensures s.pcs[i].Finished? && s.pcs[i].outcome.Reader? ==>
                s.pcs[i].outcome.size == |s.pcs[i].outcome.content|
    {
      var ms :| ValidRun(cfg, Init(cfg, files), ms) && Run(cfg, Init(cfg, files), ms) == s;
      CleanPathsStayClean(cfg, files, ms, path, digest);
    }
  }

  lemma NoImageIsFine(cfg: Config, files: map<CachePath, Bytes>, path: CachePath, digest: string)
    requires Shared(cfg, path, digest) && !IsHash(cfg, digest)
    ensures NeverMissing(cfg, files, path)
  {
    InitCoherent(cfg, files);
    forall s, i | Reaches(cfg, Init(cfg, files), s) && 0 <= i < |s.pcs| == |cfg.callers| && cfg.callers[i].path == path
      ensures s.pcs[i] != Finished(Failed(Missing))
    {
      var ms :| ValidRun(cfg, Init(cfg, files), ms) && Run(cfg, Init(cfg, files), ms) == s;
      RunNever(cfg, Init(cfg, files), ms, path, digest);
      assert PcNever(s, s.pcs[i]);
    }
  }

  lemma OneLengthIsFine(cfg: Config, files: map<CachePath, Bytes>, path: CachePath, digest: string)
    requires Shared(cfg, path, digest) && path in files && OneLength(cfg, digest, |files[path]|)
    ensures SizesTrue(cfg, files, path)
  {
    forall s, i | Reaches(cfg, Init(cfg, files), s) && 0 <= i < |s.pcs| == |cfg.callers| && cfg.callers[i].path == path
      ensures s.pcs[i].Finished? && s.pcs[i].outcome.Reader? ==>
                s.pcs[i].outcome.size == |s.pcs[i].outcome.content|
    {
      var ms :| ValidRun(cfg, Init(cfg, files), ms) && Run(cfg, Init(cfg, files), ms) == s;
      RunLong(cfg, Init(cfg, files), ms, path, digest, |files[path]|);
      assert PcLong(cfg, s.pcs[i], digest, |files[path]|);
    }
  }

  /** The "missing after download" error is impossible exactly when the path starts absent or correct, has a single
      caller, or asks for a digest that nothing has. */
  lemma MissingImpossibleExactly(cfg: Config, files: map<CachePath, Bytes>, a: nat)
    requires a < |cfg.callers| && Shared(cfg, cfg.callers[a].path, cfg.callers[a].digest)
    ensures
      NeverMissing(cfg, files, cfg.callers[a].path) <==>
      || AbsentOrCorrect(cfg, files, cfg.callers[a].path, cfg.callers[a].digest)
      || Sole(cfg, a)
      || !IsHash(cfg, cfg.callers[a].digest)
  {
    var path, digest := cfg.callers[a].path, cfg.callers[a].digest;
    if AbsentOrCorrect(cfg, files, path, digest) {
      CleanIsFine(cfg, files, path, digest);
    } else if Sole(cfg, a) {
      SoleIsFine(cfg, files, a);
    } else if !IsHash(cfg, digest) {
      NoImageIsFine(cfg, files, path, digest);
    } else {
      var b := Neighbour(cfg, a);
      var good :| cfg.hash(good) == digest;
      StaleFileGoesMissing(cfg, files, a, b, good);
    }
  }

  /** Readers are told the size of what they read exactly when the path starts absent or correct, has a single
      caller, or everything with the digest is as long as the stale file. */
  lemma SizesTrueExactly(cfg: Config, files: map<CachePath, Bytes>, a: nat)
    requires a < |cfg.callers| && Shared(cfg, cfg.callers[a].path, cfg.callers[a].digest)
    ensures
      SizesTrue(cfg, files, cfg.callers[a].path) <==>
      || AbsentOrCorrect(cfg, files, cfg.callers[a].path, cfg.callers[a].digest)
      || Sole(cfg, a)
      || OneLength(cfg, cfg.callers[a].digest, |files[cfg.callers[a].path]|)
  {
    var path, digest := cfg.callers[a].path, cfg.callers[a].digest;
    if AbsentOrCorrect(cfg, files, path, digest) {
      CleanIsFine(cfg, files, path, digest);
    } else if Sole(cfg, a) {
      SoleIsFine(cfg, files, a);
    } else if OneLength(cfg, digest, |files[path]|) {
      OneLengthIsFine(cfg, files, path, digest);
    } else {
      var b := Neighbour(cfg, a);
      var good :| cfg.hash(good) == digest && |good| != |files[path]|;
      StaleSizeReported(cfg, files, a, b, good);
    }
  }
}
