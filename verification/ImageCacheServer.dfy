/** The cache code as one caller runs it: methods over a directory, a map of flights and call objects,
    each proved to be a run of the interleaving protocol with that caller alone. */
module ImageCacheServer {
  import opened Outcomes
  import opened ImageDigest
  import opened ImageCacheProtocol
  import opened ImageCacheProgress

  /** The operations that can fail with an I/O error. */
  datatype Operation =
    | StatFile(phase: Phase) | HashFile(phase: Phase) | RemoveFile(phase: Phase) | OpenFile(phase: Phase)
    | RenameFile | StatAfterRename

  datatype TryResult = Opened(size: nat, content: Bytes) | Missed | TryError(error: Error)

  /** The reader shows the cached file, and that file has the caller's digest. */
  ghost predicate OpenedRight(cfg: Config, files: map<CachePath, Bytes>, size: nat, content: Bytes)
    requires |cfg.callers| == 1
  {
    var path := cfg.callers[0].path;
    path in files && files[path] == content && size == |content| && cfg.hash(content) == cfg.callers[0].digest
  }

  /** Without I/O errors a good file is opened, and a bad one is removed and missed. */
  ghost predicate TriedAlone(cfg: Config, before: map<CachePath, Bytes>, after: map<CachePath, Bytes>, r: TryResult)
    requires |cfg.callers| == 1
  {
    var path := cfg.callers[0].path;
    if path in before && cfg.hash(before[path]) == cfg.callers[0].digest
    then r == Opened(|before[path]|, before[path])
    else r == Missed && after == before - {path}
  }

  class ImageFlightCall {
    var done: bool
    var err: Option<Error>

    constructor ()
      ensures !done && err.None?
    {
      done, err := false, None;
    }
  }

  class ImageCache {
    var files: map<CachePath, Bytes>
    var m: map<CachePath, ImageFlightCall>

    constructor (files: map<CachePath, Bytes>)
      ensures this.files == files && m == map[]
    {
      this.files, m := files, map[];
    }

    /** tryOpenCachedImage. `s` is the protocol state before and `t` the one after. */
    method TryOpenCachedImage(cfg: Config, phase: Phase, fails: Operation -> bool, ghost start: State, ghost s: State)
      returns (r: TryResult, ghost t: State)
      requires |cfg.callers| == 1 && Reaches(cfg, start, s)
      requires WellSized(cfg, s) && s.pcs == [Stat(phase)] && s.files == files
      requires phase.Leading? ==> phase.call < |s.calls|
      modifies this`files
      ensures Reaches(cfg, start, t) && t.files == files
      ensures files == old(files) || files == old(files) - {cfg.callers[0].path}
      ensures t == TriedState(s.(files := files, removals := t.removals), phase, r)
      ensures r.TryError? ==> r.error == IoError
      ensures r.Opened? ==> OpenedRight(cfg, files, r.size, r.content) && files == old(files)
      ensures (forall op :: !fails(op)) ==> TriedAlone(cfg, old(files), files, r)
    {
      var path := cfg.callers[0].path;
      var failed := fails(StatFile(phase));
      t := Advance(cfg, start, s, if failed then Fault else Proceed);
      if failed {
        return TryError(IoError), t;
      }
      if path !in files {
        return Missed, t;
      }
      r, t := OpenIfRight(cfg, phase, |files[path]|, fails, start, t);
    }

    /** The protocol state after a use of the cache file with that result. */
    ghost static function TriedState(s: State, phase: Phase, r: TryResult): State
      requires |s.pcs| == 1 && (phase.Leading? ==> phase.call < |s.calls|)
    {
      match r
      case Opened(size, content) => TryOpens(s, 0, phase, size, content)
      case Missed => TryMisses(s, 0, phase)
      case TryError(e) => TryFails(s, 0, phase, e)
    }

    /** The rest of tryOpenCachedImage, for a file that is there. */
    method OpenIfRight(cfg: Config, phase: Phase, size: nat, fails: Operation -> bool, ghost start: State, ghost s: State)
      returns (r: TryResult, ghost t: State)
      requires |cfg.callers| == 1 && Reaches(cfg, start, s)
      requires WellSized(cfg, s) && s.pcs == [Hashing(phase, size)] && s.files == files
      requires phase.Leading? ==> phase.call < |s.calls|
      requires cfg.callers[0].path in files && size == |files[cfg.callers[0].path]|
      modifies this`files
      ensures Reaches(cfg, start, t) && t.files == files
      ensures files == old(files) || files == old(files) - {cfg.callers[0].path}
      ensures t == TriedState(s.(files := files, removals := t.removals), phase, r)
      ensures r.TryError? ==> r.error == IoError
      ensures r.Opened? ==> OpenedRight(cfg, files, r.size, r.content) && files == old(files)
      ensures (forall op :: !fails(op)) ==> TriedAlone(cfg, old(files), files, r)
    {
      var path, digest := cfg.callers[0].path, cfg.callers[0].digest;
      var failed := fails(HashFile(phase));
      t := Advance(cfg, start, s, if failed then Fault else Proceed);
      if failed {
        return TryError(IoError), t;
      }
      if cfg.hash(files[path]) != digest {
        failed := fails(RemoveFile(phase));
        t := Advance(cfg, start, t, if failed then Fault else Proceed);
        if failed {
          return TryError(IoError), t;
        }
        files := files - {path};
        return Missed, t;
      }
      failed := fails(OpenFile(phase));
      t := Advance(cfg, start, t, if failed then Fault else Proceed);
      if failed {
        return TryError(IoError), t;
      }
      return Opened(size, files[path]), t;
    }

    /** One protocol step of the only caller. */
    static ghost method Advance(cfg: Config, start: State, s: State, answer: Answer) returns (t: State)
      requires Reaches(cfg, start, s) && Enabled(cfg, s, Move(0, answer))
      ensures Reaches(cfg, start, t) && t == Step(cfg, s, Move(0, answer))
    {
      ReachesOneMore(cfg, start, s, Move(0, answer));
      t := Step(cfg, s, Move(0, answer));
    }

    /** downloadImageToCache; `body` is what the server sends, if the transfer succeeds. */
    method DownloadImageToCache(cfg: Config, body: Option<Bytes>, fails: Operation -> bool,
                                ghost start: State, ghost s: State, ghost c: nat)
      returns (err: Option<Error>, ghost t: State)
      requires |cfg.callers| == 1 && Reaches(cfg, start, s) && c < |s.calls|
      requires WellSized(cfg, s) && s.pcs == [Fetching(c)] && s.files == files
      modifies this`files
      ensures Reaches(cfg, start, t) && t.files == files
      ensures t == Resolved(s.(files := files, commits := t.commits), 0, c, err) && err != Some(Missing)
      ensures
        var path, digest := cfg.callers[0].path, cfg.callers[0].digest;
        && (files == old(files) ||
            (body.Some? && cfg.hash(body.value) == digest && files == old(files)[path := body.value]))
        && ((forall op :: !fails(op)) ==>
              if body.None? then err == Some(DownloadError) && files == old(files)
              else if cfg.hash(body.value) != digest then err == Some(DigestMismatch) && files == old(files)
              else err == None && files == old(files)[path := body.value])
    {
      var path, digest := cfg.callers[0].path, cfg.callers[0].digest;
      t := Advance(cfg, start, s, if body.None? then Fault else Fetched(body.value));
      if body.None? {
        return Some(DownloadError), t;
      }
      if cfg.hash(body.value) != digest {
        return Some(DigestMismatch), t;
      }
      var failed := fails(RenameFile);
      t := Advance(cfg, start, t, if failed then Fault else Proceed);
      if failed {
        failed := fails(StatAfterRename);
        t := Advance(cfg, start, t, if failed then Fault else Proceed);
        if !failed && path in files {
          return None, t;
        }
        return Some(IoError), t;
      }
      files := files[path := body.value];
      return None, t;
    }

    /** What an undisturbed leader leaves, for the directory before and after and its error. */
    ghost static predicate LeaderResult(cfg: Config, body: Option<Bytes>, before: map<CachePath, Bytes>,
                                        after: map<CachePath, Bytes>, err: Option<Error>)
      requires |cfg.callers| == 1
    {
      var path, digest := cfg.callers[0].path, cfg.callers[0].digest;
      if path in before && cfg.hash(before[path]) == digest then err.None? && after == before
      else if body.None? then err == Some(DownloadError) && after == before - {path}
      else if cfg.hash(body.value) != digest then err == Some(DigestMismatch) && after == before - {path}
      else err.None? && after == (before - {path})[path := body.value]
    }

    ghost static predicate SameElsewhere(path: CachePath, before: map<CachePath, Bytes>, after: map<CachePath, Bytes>) {
      before - {path} == after - {path}
    }

    /** The function the leader runs: try the cache again, then download. */
    method RunLeader(cfg: Config, body: Option<Bytes>, fails: Operation -> bool, ghost start: State, ghost s: State)
      returns (err: Option<Error>, ghost t: State)
      requires |cfg.callers| == 1 && Reaches(cfg, start, s) && WellSized(cfg, s)
      requires s.pcs == [Stat(Leading(0))] && s.files == files && |s.calls| == 1
      modifies this`files
      ensures Reaches(cfg, start, t) && WellSized(cfg, t) && t.files == files && err != Some(Missing)
      ensures t.pcs == [Unmapping(0)] && t.calls == [s.calls[0].(err := err)]
      ensures SameElsewhere(cfg.callers[0].path, old(files), files)
      ensures (forall op :: !fails(op)) ==> LeaderResult(cfg, body, old(files), files, err)
    {
      var tried;
      tried, t := TryOpenCachedImage(cfg, Leading(0), fails, start, s);
      match tried {
        case TryError(e) => err := Some(e);
        case Opened(_, _) => err := None;
        case Missed =>
          assert t.pcs == [Fetching(0)];
          err, t := DownloadImageToCache(cfg, body, fails, start, t, 0);
      }
    }

    /** The protocol steps of the first critical section: insert the entry. */
    static ghost method StartFlight(cfg: Config, start: State, s: State) returns (t: State)
      requires |cfg.callers| == 1 && Reaches(cfg, start, s) && WellSized(cfg, s)
      requires s.pcs == [Entering] && s.inflight == map[] && s.calls == []
      ensures Reaches(cfg, start, t) && WellSized(cfg, t)
      ensures t.files == s.files && t.pcs == [Stat(Leading(0))] && t.calls == [Call(cfg.callers[0].path, 0, None, false)]
    {
      t := Advance(cfg, start, s, Proceed);
    }

    /** The protocol steps of the second critical section and the wake-up. */
    static ghost method FinishFlight(cfg: Config, start: State, s: State) returns (t: State)
      requires |cfg.callers| == 1 && Reaches(cfg, start, s) && WellSized(cfg, s)
      requires s.pcs == [Unmapping(0)] && |s.calls| == 1
      ensures Reaches(cfg, start, t) && WellSized(cfg, t) && t.files == s.files
      ensures
        var err := s.calls[0].err;
        t.pcs == [if err.Some? then Finished(Failed(err.value)) else Stat(Last)] && t.flights == [Some((0, err))]
    {
      t := Advance(cfg, start, s, Proceed);
      assert t.pcs == [Signalling(0)];
      t := Advance(cfg, start, t, Proceed);
    }

    /** imageFlightGroup.do around the leader's function, for a caller that finds no flight. */
    method LeadFlight(cfg: Config, body: Option<Bytes>, fails: Operation -> bool, ghost start: State, ghost s: State)
      returns (err: Option<Error>, ghost t: State)
      requires |cfg.callers| == 1 && Reaches(cfg, start, s) && cfg.callers[0].path !in m
      requires WellSized(cfg, s) && s.pcs == [Entering] && s.files == files && s.inflight == map[] && s.calls == []
      modifies this
      ensures m == old(m)
      ensures Reaches(cfg, start, t) && t.files == files && WellSized(cfg, t)
      ensures t.pcs == [if err.Some? then Finished(Failed(err.value)) else Stat(Last)]
      ensures t.flights == [Some((0, err))] && err != Some(Missing)
      ensures SameElsewhere(cfg.callers[0].path, old(files), files)
      ensures (forall op :: !fails(op)) ==> LeaderResult(cfg, body, old(files), files, err)
    {
      var key := cfg.callers[0].path;
      t := StartFlight(cfg, start, s);
      var call := new ImageFlightCall();
      m := m[key := call];
      err, t := RunLeader(cfg, body, fails, start, t);
      call.err := err;
      m := m - {key};
      call.done := true;
      t := FinishFlight(cfg, start, t);
      return call.err, t;
    }

    /** What an undisturbed caller gets. */
    ghost static predicate AloneOutcome(cfg: Config, body: Option<Bytes>, before: map<CachePath, Bytes>, outcome: Outcome)
      requires |cfg.callers| == 1
    {
      var path, digest := cfg.callers[0].path, cfg.callers[0].digest;
      if path in before && cfg.hash(before[path]) == digest then outcome == Reader(|before[path]|, before[path])
      else if body.None? then outcome == Failed(DownloadError)
      else if cfg.hash(body.value) != digest then outcome == Failed(DigestMismatch)
      else outcome == Reader(|body.value|, body.value)
    }

    /** The last use of the cache file, after the flight has returned without an error. */
    method OpenAfterFlight(cfg: Config, fails: Operation -> bool, ghost start: State, ghost s: State)
      returns (outcome: Outcome, ghost t: State)
      requires |cfg.callers| == 1 && Reaches(cfg, start, s) && WellSized(cfg, s)
      requires s.pcs == [Stat(Last)] && s.files == files
      modifies this`files
      ensures Reaches(cfg, start, t) && t.pcs == [Finished(outcome)] && t.files == files
      ensures SameElsewhere(cfg.callers[0].path, old(files), files)
      ensures outcome.Reader? ==> OpenedRight(cfg, files, outcome.size, outcome.content)
      ensures (forall op :: !fails(op)) ==>
                var path := cfg.callers[0].path;
                path in old(files) && cfg.hash(old(files)[path]) == cfg.callers[0].digest ==>
                outcome == Reader(|old(files)[path]|, old(files)[path])
    {
      var tried;
      tried, t := TryOpenCachedImage(cfg, Last, fails, start, s);
      match tried {
        case TryError(e) =>
          assert t.pcs == [Finished(Failed(e))];
          outcome := Failed(e);
        case Opened(size, content) =>
          assert t.pcs == [Finished(Reader(size, content))];
          outcome := Reader(size, content);
        case Missed =>
          assert t.pcs == [Finished(Failed(Missing))];
          outcome := Failed(Missing);
      }
    }

    /** openCachedOrDownloadImage for a caller that is not disturbed: a run of the protocol, whose result
        is the cached file if it is right, and otherwise what the download allows. */
    method OpenCachedOrDownloadImage(cfg: Config, body: Option<Bytes>, fails: Operation -> bool)
      returns (outcome: Outcome)
      requires |cfg.callers| == 1 && cfg.callers[0].path !in m
      modifies this
      ensures m == old(m)
      ensures exists t :: Reaches(cfg, Init(cfg, old(files)), t) && t.pcs == [Finished(outcome)] && t.files == files
      ensures SameElsewhere(cfg.callers[0].path, old(files), files)
      ensures outcome.Reader? ==> OpenedRight(cfg, files, outcome.size, outcome.content)
      ensures (forall op :: !fails(op)) ==> AloneOutcome(cfg, body, old(files), outcome)
    {
      ghost var start := Init(cfg, files);
      assert start.pcs == [Stat(First)] && start.flights == [None];
      ReachesItself(cfg, start);
      var tried, t := TryOpenCachedImage(cfg, First, fails, start, start);
      match tried {
        case TryError(e) =>
          assert t.pcs == [Finished(Failed(e))];
          return Failed(e);
        case Opened(size, content) =>
          assert t.pcs == [Finished(Reader(size, content))];
          return Reader(size, content);
        case Missed =>
      }
      assert t.pcs == [Entering];
      var err;
      err, t := LeadFlight(cfg, body, fails, start, t);
      if err.Some? {
        return Failed(err.value);
      }
      outcome, t := OpenAfterFlight(cfg, fails, start, t);
    }
  }
}
