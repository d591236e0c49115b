/** The image cache as interleaved atomic steps (internal/libvirt/imagecache.go): callers share a
    directory, a map of flights and the flights' call objects. One step is one file system call, one
    critical section, one download, or one wake-up. */
module ImageCacheProtocol {
  import opened Outcomes
  import opened ImageDigest

  type Bytes = string

  datatype Caller = Caller(path: CachePath, digest: string)

  /** `hash` is SHA-256 in hexadecimal; only its being a function matters. */
  datatype Config = Config(hash: Bytes -> string, callers: seq<Caller>)

  datatype Error = IoError | DownloadError | DigestMismatch | Missing

  datatype Outcome = Reader(size: nat, content: Bytes) | Failed(error: Error)

  /** Which of the three uses of tryOpenCachedImage is running. */
  datatype Phase = First | Leading(call: nat) | Last

  datatype Pc =
    | Stat(phase: Phase)
    | Hashing(phase: Phase, size: nat)
    | Removing(phase: Phase)
    | Opening(phase: Phase, size: nat)
    | Entering
    | Waiting(call: nat)
    | Fetching(call: nat)
    | Committing(call: nat, content: Bytes)
    | Rechecking(call: nat)
    | Unmapping(call: nat)
    | Signalling(call: nat)
    | Finished(outcome: Outcome)
  {
    /** The call object this caller leads, until it has signalled the waiters. */
    function Led(): Option<nat> {
      match this
      case Stat(Leading(c)) => Some(c)
      case Hashing(Leading(c), _) => Some(c)
      case Removing(Leading(c)) => Some(c)
      case Opening(Leading(c), _) => Some(c)
      case Fetching(c) => Some(c)
      case Committing(c, _) => Some(c)
      case Rechecking(c) => Some(c)
      case Unmapping(c) => Some(c)
      case Signalling(c) => Some(c)
      case _ => None
    }
  }

  /** One imageFlightCall object, with the path and the caller it was created for. */
  datatype Call = Call(key: CachePath, leader: nat, err: Option<Error>, done: bool)

  /** The shared state, one program counter per caller, and three logs of what happened: which paths
      were renamed into, which were removed, and what each caller's flight returned. */
  datatype State = State(
    files: map<CachePath, Bytes>,
    inflight: map<CachePath, nat>,
    calls: seq<Call>,
    pcs: seq<Pc>,
    commits: seq<CachePath>,
    removals: seq<CachePath>,
    flights: seq<Option<(nat, Option<Error>)>>)

  /** How the world answers a step: normally, with an I/O error, or with downloaded bytes. */
  datatype Answer = Proceed | Fault | Fetched(content: Bytes)

  datatype Move = Move(caller: nat, answer: Answer)

  ghost function Init(cfg: Config, files: map<CachePath, Bytes>): State {
    State(files, map[], [], seq(|cfg.callers|, i => Stat(First)), [], [], seq(|cfg.callers|, i => None))
  }

  ghost predicate WellSized(cfg: Config, s: State) {
    |s.pcs| == |s.flights| == |cfg.callers|
  }

  ghost predicate Enabled(cfg: Config, s: State, m: Move) {
    && WellSized(cfg, s)
    && m.caller < |s.pcs|
    && (s.pcs[m.caller].Waiting? ==> s.pcs[m.caller].call < |s.calls|)
    && (s.pcs[m.caller].Led().Some? ==> s.pcs[m.caller].Led().value < |s.calls|)
    && match s.pcs[m.caller]
       case Finished(_) => false
       case Waiting(c) => m.answer.Proceed? && s.calls[c].done
       case Entering => m.answer.Proceed?
       case Unmapping(_) => m.answer.Proceed?
       case Signalling(_) => m.answer.Proceed?
       case Fetching(_) => !m.answer.Proceed?
       case _ => !m.answer.Fetched?
  }

  /** tryOpenCachedImage reports an error. */
  function TryFails(s: State, i: nat, phase: Phase, e: Error): State
    requires i < |s.pcs| && (phase.Leading? ==> phase.call < |s.calls|)
  {
    match phase
    case First => s.(pcs := s.pcs[i := Finished(Failed(e))])
    case Leading(c) => Resolved(s, i, c, Some(e))
    case Last => s.(pcs := s.pcs[i := Finished(Failed(e))])
  }

  /** tryOpenCachedImage reports a miss. */
  function TryMisses(s: State, i: nat, phase: Phase): State
    requires i < |s.pcs|
  {
    match phase
    case First => s.(pcs := s.pcs[i := Entering])
    case Leading(c) => s.(pcs := s.pcs[i := Fetching(c)])
    case Last => s.(pcs := s.pcs[i := Finished(Failed(Missing))])
  }

  /** tryOpenCachedImage returns an open file. */
  function TryOpens(s: State, i: nat, phase: Phase, size: nat, content: Bytes): State
    requires i < |s.pcs| && (phase.Leading? ==> phase.call < |s.calls|)
  {
    match phase
    case First => s.(pcs := s.pcs[i := Finished(Reader(size, content))])
    case Leading(c) => Resolved(s, i, c, None)
    case Last => s.(pcs := s.pcs[i := Finished(Reader(size, content))])
  }

  /** The leader's function returned: its result goes into the call object. */
  function Resolved(s: State, i: nat, c: nat, err: Option<Error>): State
    requires i < |s.pcs| && c < |s.calls|
  {
    s.(calls := s.calls[c := s.calls[c].(err := err)], pcs := s.pcs[i := Unmapping(c)])
  }

  /** `do` returned the error of call `c` to caller `i`. */
  function Returned(s: State, i: nat, c: nat, err: Option<Error>): State
    requires i < |s.pcs| == |s.flights|
  {
    s.(flights := s.flights[i := Some((c, err))],
       pcs := s.pcs[i := if err.Some? then Finished(Failed(err.value)) else Stat(Last)])
  }

  function Enter(s: State, i: nat, key: CachePath): State
    requires i < |s.pcs|
  {
    if key in s.inflight then s.(pcs := s.pcs[i := Waiting(s.inflight[key])])
    else
      var c := |s.calls|;
      s.(calls := s.calls + [Call(key, i, None, false)],
         inflight := s.inflight[key := c],
         pcs := s.pcs[i := Stat(Leading(c))])
  }

  ghost function Step(cfg: Config, s: State, m: Move): State
    requires Enabled(cfg, s, m)
  {
    var i := m.caller;
    var path, digest := cfg.callers[i].path, cfg.callers[i].digest;
    match s.pcs[i]
    case Stat(phase) =>
      if m.answer.Fault? then TryFails(s, i, phase, IoError)
      else if path !in s.files then TryMisses(s, i, phase)
      else s.(pcs := s.pcs[i := Hashing(phase, |s.files[path]|)])
    case Hashing(phase, size) =>
      if m.answer.Fault? || path !in s.files then TryFails(s, i, phase, IoError)
      else if cfg.hash(s.files[path]) != digest then s.(pcs := s.pcs[i := Removing(phase)])
      else s.(pcs := s.pcs[i := Opening(phase, size)])
    case Removing(phase) =>
      if m.answer.Fault? then TryFails(s, i, phase, IoError)
      else TryMisses(s.(files := s.files - {path}, removals := s.removals + [path]), i, phase)
    case Opening(phase, size) =>
      if m.answer.Fault? || path !in s.files then TryFails(s, i, phase, IoError)
      else TryOpens(s, i, phase, size, s.files[path])
    case Entering => Enter(s, i, path)
    case Waiting(c) => Returned(s, i, c, s.calls[c].err)
    case Fetching(c) =>
      if m.answer.Fault? then Resolved(s, i, c, Some(DownloadError))
      else if cfg.hash(m.answer.content) != digest then Resolved(s, i, c, Some(DigestMismatch))
      else s.(pcs := s.pcs[i := Committing(c, m.answer.content)])
    case Committing(c, content) =>
      if m.answer.Fault? then s.(pcs := s.pcs[i := Rechecking(c)])
      else Resolved(s.(files := s.files[path := content], commits := s.commits + [path]), i, c, None)
    case Rechecking(c) =>
      Resolved(s, i, c, if m.answer.Proceed? && path in s.files then None else Some(IoError))
    case Unmapping(c) => s.(inflight := s.inflight - {path}, pcs := s.pcs[i := Signalling(c)])
    case Signalling(c) =>
      Returned(s.(calls := s.calls[c := s.calls[c].(done := true)]), i, c, s.calls[c].err)
  }

  ghost predicate ValidRun(cfg: Config, s: State, ms: seq<Move>)
    decreases |ms|
  {
    ms == [] || (Enabled(cfg, s, ms[0]) && ValidRun(cfg, Step(cfg, s, ms[0]), ms[1..]))
  }

  ghost function Run(cfg: Config, s: State, ms: seq<Move>): State
    requires ValidRun(cfg, s, ms)
    decreases |ms|
  {
    if ms == [] then s else Run(cfg, Step(cfg, s, ms[0]), ms[1..])
  }

  // ----- The flight group -----

  /** The caller leads call `c`, which is the entry of its path until the entry is deleted. */
  ghost predicate LeaderOk(s: State, i: nat, pc: Pc, path: CachePath)
    requires pc.Led().Some?
  {
    var c := pc.Led().value;
    && c < |s.calls| && s.calls[c].leader == i && s.calls[c].key == path && !s.calls[c].done
    && (!pc.Signalling? ==> path in s.inflight && s.inflight[path] == c)
  }

  /** An entry belongs to a caller that leads it and has not deleted it yet. */
  ghost predicate EntryOk(s: State, key: CachePath, c: nat) {
    && c < |s.calls| && s.calls[c].key == key && s.calls[c].leader < |s.pcs|
    && s.pcs[s.calls[c].leader].Led() == Some(c) && !s.pcs[s.calls[c].leader].Signalling?
  }

  /** A call that is not done still has its leader. */
  ghost predicate CallOk(s: State, c: nat)
    requires c < |s.calls|
  {
    s.calls[c].leader < |s.pcs| && s.pcs[s.calls[c].leader].Led() == Some(c)
  }

  /** What a finished flight returned is the error kept in the call object it joined. */
  ghost predicate FlightOk(s: State, flight: (nat, Option<Error>), path: CachePath) {
    && flight.0 < |s.calls|
    && s.calls[flight.0].key == path && s.calls[flight.0].done && s.calls[flight.0].err == flight.1
  }

  ghost predicate WaiterOk(s: State, c: nat, path: CachePath) {
    c < |s.calls| && s.calls[c].key == path
  }

  ghost predicate Coherent(cfg: Config, s: State) {
    && WellSized(cfg, s)
    && (forall i | 0 <= i < |s.pcs| && s.pcs[i].Led().Some? :: LeaderOk(s, i, s.pcs[i], cfg.callers[i].path))
    && (forall key | key in s.inflight :: EntryOk(s, key, s.inflight[key]))
    && (forall c | 0 <= c < |s.calls| && !s.calls[c].done :: CallOk(s, c))
    && (forall i | 0 <= i < |s.pcs| && s.pcs[i].Waiting? :: WaiterOk(s, s.pcs[i].call, cfg.callers[i].path))
    && (forall i | 0 <= i < |s.pcs| && s.flights[i].Some? :: FlightOk(s, s.flights[i].value, cfg.callers[i].path))
  }

  lemma InitCoherent(cfg: Config, files: map<CachePath, Bytes>)
    ensures Coherent(cfg, Init(cfg, files))
  {
  }

  /** A step inside one of the three uses of the cache file keeps the group as it is. */
  lemma MoveCoherent(cfg: Config, s: State, i: nat, pc: Pc, s': State)
    requires Coherent(cfg, s) && i < |s.pcs| && pc.Led() == s.pcs[i].Led()
    requires !pc.Signalling? && !s.pcs[i].Signalling? && !pc.Waiting?
    requires s'.pcs == s.pcs[i := pc] && s'.calls == s.calls && s'.inflight == s.inflight && s'.flights == s.flights
    ensures Coherent(cfg, s')
  {
  }

  lemma ResolvedCoherent(cfg: Config, s: State, i: nat, c: nat, err: Option<Error>, s': State)
    requires Coherent(cfg, s) && i < |s.pcs| && s.pcs[i].Led() == Some(c) && !s.pcs[i].Signalling?
    requires c < |s.calls|
    requires var t := Resolved(s, i, c, err);
             s'.pcs == t.pcs && s'.calls == t.calls && s'.inflight == t.inflight && s'.flights == t.flights
    ensures Coherent(cfg, s')
  {
    assert LeaderOk(s, i, s.pcs[i], cfg.callers[i].path);
    assert forall j | 0 <= j < |s.pcs| && j != i :: s'.pcs[j] == s.pcs[j];
    assert forall d | 0 <= d < |s.calls| && d != c :: s'.calls[d] == s.calls[d];
  }

  lemma JoinCoherent(cfg: Config, s: State, i: nat)
    requires Coherent(cfg, s) && i < |s.pcs| && s.pcs[i].Entering? && cfg.callers[i].path in s.inflight
    ensures Coherent(cfg, Enter(s, i, cfg.callers[i].path))
  {
    assert EntryOk(s, cfg.callers[i].path, s.inflight[cfg.callers[i].path]);
  }

  lemma LeadCoherent(cfg: Config, s: State, i: nat)
    requires Coherent(cfg, s) && i < |s.pcs| && s.pcs[i].Entering? && cfg.callers[i].path !in s.inflight
    ensures Coherent(cfg, Enter(s, i, cfg.callers[i].path))
  {
  }

  lemma UnmapCoherent(cfg: Config, s: State, i: nat)
    requires Coherent(cfg, s) && i < |s.pcs| && s.pcs[i].Unmapping?
    ensures Coherent(cfg, Step(cfg, s, Move(i, Proceed)))
  {
  }

  lemma SignalCoherent(cfg: Config, s: State, i: nat)
    requires Coherent(cfg, s) && i < |s.pcs| && s.pcs[i].Signalling?
    ensures Coherent(cfg, Step(cfg, s, Move(i, Proceed)))
  {
  }

  lemma WakeCoherent(cfg: Config, s: State, i: nat)
    requires Coherent(cfg, s) && Enabled(cfg, s, Move(i, Proceed)) && s.pcs[i].Waiting?
    ensures Coherent(cfg, Step(cfg, s, Move(i, Proceed)))
  {
  }

  predicate InTry(pc: Pc) {
    pc.Stat? || pc.Hashing? || pc.Removing? || pc.Opening?
  }

  lemma TryCoherent(cfg: Config, s: State, m: Move)
    requires Coherent(cfg, s) && Enabled(cfg, s, m)
    requires InTry(s.pcs[m.caller])
    ensures Coherent(cfg, Step(cfg, s, m))
  {
    var s' := Step(cfg, s, m);
    TryShape(cfg, s, m);
    if s'.pcs[m.caller].Unmapping? {
      var c := s.pcs[m.caller].Led().value;
      ResolvedCoherent(cfg, s, m.caller, c, s'.calls[c].err, s');
    } else {
      MoveCoherent(cfg, s, m.caller, s'.pcs[m.caller], s');
    }
  }

  /** A step of tryOpenCachedImage ends the leader's function or only moves the caller on. */
  lemma TryShape(cfg: Config, s: State, m: Move)
    requires WellSized(cfg, s) && Enabled(cfg, s, m) && InTry(s.pcs[m.caller])
    ensures
      var s', i := Step(cfg, s, m), m.caller;
      && s'.inflight == s.inflight && s'.flights == s.flights
      && if s'.pcs[i].Unmapping? then
           && s.pcs[i].Led().Some?
           && (var c := s.pcs[i].Led().value;
               s'.pcs == Resolved(s, i, c, s'.calls[c].err).pcs && s'.calls == Resolved(s, i, c, s'.calls[c].err).calls)
         else
           && s'.pcs == s.pcs[i := s'.pcs[i]] && s'.calls == s.calls && s'.pcs[i].Led() == s.pcs[i].Led()
           && !s'.pcs[i].Signalling? && !s'.pcs[i].Waiting?
  {
  }

  lemma DownloadCoherent(cfg: Config, s: State, m: Move)
    requires Coherent(cfg, s) && Enabled(cfg, s, m)
    requires s.pcs[m.caller].Fetching? || s.pcs[m.caller].Committing? || s.pcs[m.caller].Rechecking?
    ensures Coherent(cfg, Step(cfg, s, m))
  {
    var s' := Step(cfg, s, m);
    if s'.pcs[m.caller].Unmapping? {
      var c := s.pcs[m.caller].call;
      ResolvedCoherent(cfg, s, m.caller, c, s'.calls[c].err, s');
    } else {
      MoveCoherent(cfg, s, m.caller, s'.pcs[m.caller], s');
    }
  }

  lemma StepCoherent(cfg: Config, s: State, m: Move)
    requires Coherent(cfg, s) && Enabled(cfg, s, m)
    ensures Coherent(cfg, Step(cfg, s, m))
  {
    var i := m.caller;
    match s.pcs[i]
    case Stat(_) => TryCoherent(cfg, s, m);
    case Hashing(_, _) => TryCoherent(cfg, s, m);
    case Removing(_) => TryCoherent(cfg, s, m);
    case Opening(_, _) => TryCoherent(cfg, s, m);
    case Entering =>
      if cfg.callers[i].path in s.inflight {
        JoinCoherent(cfg, s, i);
      } else {
        LeadCoherent(cfg, s, i);
      }
    case Waiting(_) => WakeCoherent(cfg, s, i);
    case Fetching(_) => DownloadCoherent(cfg, s, m);
    case Committing(_, _) => DownloadCoherent(cfg, s, m);
    case Rechecking(_) => DownloadCoherent(cfg, s, m);
    case Unmapping(_) => UnmapCoherent(cfg, s, i);
    case Signalling(_) => SignalCoherent(cfg, s, i);
    case Finished(_) =>
  }

  /** Over every interleaving the flight group stays coherent. */
  lemma {:induction false} RunCoherent(cfg: Config, s: State, ms: seq<Move>)
    requires Coherent(cfg, s) && ValidRun(cfg, s, ms)
    ensures Coherent(cfg, Run(cfg, s, ms))
    decreases |ms|
  {
    if ms != [] {
      StepCoherent(cfg, s, ms[0]);
      RunCoherent(cfg, Step(cfg, s, ms[0]), ms[1..]);
    }
  }

  /** Caller `i` is between inserting and deleting the map entry of its path. */
  ghost predicate Holds(s: State, i: nat)
    requires i < |s.pcs|
  {
    s.pcs[i].Led().Some? && !s.pcs[i].Signalling?
  }

  /** Per path at most one caller is between inserting and deleting the map entry, and the entry
      exists exactly while there is such a caller. */
  lemma FlightGroupExclusive(cfg: Config, s: State, key: CachePath)
    requires Coherent(cfg, s)
    ensures forall i, j | 0 <= i < |s.pcs| && 0 <= j < |s.pcs| && Holds(s, i) && Holds(s, j)
                          && cfg.callers[i].path == cfg.callers[j].path :: i == j
    ensures key in s.inflight <==> exists i :: 0 <= i < |s.pcs| && Holds(s, i) && cfg.callers[i].path == key
  {
    forall i, j | 0 <= i < |s.pcs| && 0 <= j < |s.pcs| && Holds(s, i) && Holds(s, j)
                  && cfg.callers[i].path == cfg.callers[j].path
      ensures i == j
    {
      assert LeaderOk(s, i, s.pcs[i], cfg.callers[i].path) && LeaderOk(s, j, s.pcs[j], cfg.callers[j].path);
    }
    if key in s.inflight {
      assert EntryOk(s, key, s.inflight[key]);
      var i := s.calls[s.inflight[key]].leader;
      assert LeaderOk(s, i, s.pcs[i], cfg.callers[i].path);
      assert Holds(s, i);
    }
    forall i | 0 <= i < |s.pcs| && Holds(s, i) && cfg.callers[i].path == key ensures key in s.inflight {
      assert LeaderOk(s, i, s.pcs[i], cfg.callers[i].path);
    }
  }

  /** Over every interleaving, a caller whose flight returned got the error stored in the finished
      call object of its own path that it had joined or led, whatever flights started later. */
  lemma FlightsReturnTheirCall(cfg: Config, files: map<CachePath, Bytes>, ms: seq<Move>, i: nat)
    requires ValidRun(cfg, Init(cfg, files), ms) && i < |cfg.callers|
    ensures
      var s := Run(cfg, Init(cfg, files), ms);
      && |s.flights| == |cfg.callers|
      && (s.flights[i].Some? ==> FlightOk(s, s.flights[i].value, cfg.callers[i].path))
  {
    InitCoherent(cfg, files);
    RunCoherent(cfg, Init(cfg, files), ms);
  }
}
