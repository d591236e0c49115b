/** What every interleaving of cache callers guarantees about the files and the readers. */
module ImageCacheSafety {
  import opened Outcomes
  import opened ImageDigest
  import opened ImageCacheProtocol

  // ----- Readers get what they asked for -----

  ghost predicate IsHash(cfg: Config, digest: string) {
    exists content :: cfg.hash(content) == digest
  }

  /** Callers whose digests can be met at all and who share a file want the same digest. */
  ghost predicate PathsAgree(cfg: Config) {
    forall i, j | 0 <= i < |cfg.callers| && 0 <= j < |cfg.callers| && cfg.callers[i].path == cfg.callers[j].path
                  && IsHash(cfg, cfg.callers[i].digest) && IsHash(cfg, cfg.callers[j].digest) ::
      cfg.callers[i].digest == cfg.callers[j].digest
  }

  ghost predicate Good(cfg: Config, s: State, path: CachePath, digest: string) {
    path in s.files ==> cfg.hash(s.files[path]) == digest
  }

  ghost predicate PcVerified(cfg: Config, s: State, pc: Pc, caller: Caller) {
    match pc
    case Opening(_, _) => IsHash(cfg, caller.digest) && Good(cfg, s, caller.path, caller.digest)
    case Committing(_, content) => cfg.hash(content) == caller.digest
    case Finished(Reader(_, content)) => cfg.hash(content) == caller.digest
    case _ => true
  }

  ghost predicate Verified(cfg: Config, s: State) {
    && WellSized(cfg, s)
    && forall i | 0 <= i < |s.pcs| :: PcVerified(cfg, s, s.pcs[i], cfg.callers[i])
  }

  lemma StepVerified(cfg: Config, s: State, m: Move)
    requires PathsAgree(cfg) && Verified(cfg, s) && Enabled(cfg, s, m)
    ensures Verified(cfg, Step(cfg, s, m))
  {
    var s' := Step(cfg, s, m);
    FilesAfterStep(cfg, s, m);
    forall j | 0 <= j < |s'.pcs| ensures PcVerified(cfg, s', s'.pcs[j], cfg.callers[j]) {
      assert PcVerified(cfg, s, s.pcs[j], cfg.callers[j]);
      assert PcVerified(cfg, s, s.pcs[m.caller], cfg.callers[m.caller]);
      if j == m.caller {
        MoverVerified(cfg, s, m);
      }
    }
  }

  /** A step leaves the files alone, removes the mover's file, or installs verified content there. */
  lemma FilesAfterStep(cfg: Config, s: State, m: Move)
    requires Verified(cfg, s) && Enabled(cfg, s, m)
    ensures
      var s', caller := Step(cfg, s, m), cfg.callers[m.caller];
      && |s'.pcs| == |s.pcs| && |s'.flights| == |s.flights|
      && (forall j | 0 <= j < |s.pcs| && j != m.caller :: s'.pcs[j] == s.pcs[j])
      && (|| s'.files == s.files
          || s'.files == s.files - {caller.path}
          || (&& caller.path in s'.files && s'.files == s.files[caller.path := s'.files[caller.path]]
              && cfg.hash(s'.files[caller.path]) == caller.digest))
  {
    assert PcVerified(cfg, s, s.pcs[m.caller], cfg.callers[m.caller]);
  }

  lemma MoverVerified(cfg: Config, s: State, m: Move)
    requires Verified(cfg, s) && Enabled(cfg, s, m)
    ensures var s' := Step(cfg, s, m);
            PcVerified(cfg, s', s'.pcs[m.caller], cfg.callers[m.caller])
  {
    assert PcVerified(cfg, s, s.pcs[m.caller], cfg.callers[m.caller]);
  }

  lemma {:induction false} RunVerified(cfg: Config, s: State, ms: seq<Move>)
    requires PathsAgree(cfg) && Verified(cfg, s) && ValidRun(cfg, s, ms)
    ensures Verified(cfg, Run(cfg, s, ms))
    decreases |ms|
  {
    if ms != [] {
      StepVerified(cfg, s, ms[0]);
      RunVerified(cfg, Step(cfg, s, ms[0]), ms[1..]);
    }
  }

  /** Whatever the directory holds at the start and however the callers interleave, a reader returned
      from the cached path has content with the caller's digest. */
  lemma ReadersMatchTheirDigest(cfg: Config, files: map<CachePath, Bytes>, ms: seq<Move>, i: nat)
    requires PathsAgree(cfg) && ValidRun(cfg, Init(cfg, files), ms) && i < |cfg.callers|
    ensures
      var s := Run(cfg, Init(cfg, files), ms);
      && |s.pcs| == |cfg.callers|
      && (s.pcs[i].Finished? && s.pcs[i].outcome.Reader? ==>
            cfg.hash(s.pcs[i].outcome.content) == cfg.callers[i].digest)
  {
    RunVerified(cfg, Init(cfg, files), ms);
    var s := Run(cfg, Init(cfg, files), ms);
    assert PcVerified(cfg, s, s.pcs[i], cfg.callers[i]);
  }

  /** The agreement on paths follows from how the code builds them, for every mix of digests: one that
      is not plain hexadecimal is no hash at all and may name any file. */
  lemma CachePathsAgree(cfg: Config, dirs: seq<string>, urls: seq<string>)
    requires |dirs| == |urls| == |cfg.callers|
    requires forall content :: PlainHex(cfg.hash(content))
    requires forall i | 0 <= i < |cfg.callers| && PlainHex(cfg.callers[i].digest) ::
               cfg.callers[i].path == ImageCachePath(dirs[i], cfg.callers[i].digest, urls[i])
    ensures PathsAgree(cfg)
  {
    forall i, j | 0 <= i < |cfg.callers| && 0 <= j < |cfg.callers| && cfg.callers[i].path == cfg.callers[j].path
                  && IsHash(cfg, cfg.callers[i].digest) && IsHash(cfg, cfg.callers[j].digest)
      ensures cfg.callers[i].digest == cfg.callers[j].digest
    {
      PathDeterminesDigest(dirs[i], cfg.callers[i].digest, urls[i], dirs[j], cfg.callers[j].digest, urls[j]);
    }
  }
}
