/** Requests, the steps of a save, crashes and restarts as one state machine (internal/server/server.go). */
module Durability {
  import opened Outcomes
  import opened Tables
  import opened TableRuns
  import opened Store
  import opened Persist
  import opened StateMethods
  import opened Handlers

  // ----- Starting up -----

  const DEFAULT_TYPES: seq<string> := ["dgx-h100-8x", "dgx-h100-4x", "hgx-h100-8x"]

  function AddTypes(it: map<string, InstanceType>, ids: seq<string>, now: string): (r: map<string, InstanceType>)
    ensures r.Keys == it.Keys + set id | id in ids
    ensures forall k | k in r :: r[k] == if k in it then it[k] else InstanceType(k, now, "default")
  {
    if ids == [] then it
    else
      var n := |ids| - 1;
      var before := AddTypes(it, ids[..n], now);
      assert ids == ids[..n] + [ids[n]];
      if ids[n] in before then before else before[ids[n] := InstanceType(ids[n], now, "default")]
  }

  function WithDefaults(t: Tables, now: string): Tables {
    if t.it == map[] then t.(it := AddTypes(t.it, DEFAULT_TYPES, now)) else t
  }

  /** What is fixed while the process comes and goes. */
  datatype Env = Env(format: Format, path: string, machines: map<string, Machine>)

  ghost predicate ValidEnv(env: Env) {
    && FaithfulFormat(env.format) && env.path != ""
    && Machines(env.machines) && "" !in env.machines
  }

  /** Run up to serving: the inventory, then the state file, then default types if there are none. */
  function StartedUp(env: Env, files: Files, now: string): Option<Tables> {
    var snap := Loaded(env.format, files, env.path);
    if snap.None? then None else Some(WithDefaults(Applied(Fresh(env.machines), snap.value), now))
  }

  method LoadDefaultInstanceTypes(f: Server, now: string)
    modifies f
    ensures f.View() == old(f.View()).(it := AddTypes(old(f.it), DEFAULT_TYPES, now))
  {
    for k := 0 to |DEFAULT_TYPES|
      invariant f.View() == old(f.View()).(it := AddTypes(old(f.it), DEFAULT_TYPES[..k], now))
    {
      var id := DEFAULT_TYPES[k];
      assert DEFAULT_TYPES[..k + 1][..k] == DEFAULT_TYPES[..k];
      if id in f.it {
        continue;
      }
      f.it := f.it[id := InstanceType(id, now, "default")];
    }
    assert DEFAULT_TYPES[..|DEFAULT_TYPES|] == DEFAULT_TYPES;
  }

  method StartUp(env: Env, fs: FileSystem, now: string) returns (started: Option<Server>)
    requires env.path != ""
    ensures started.Some? <==> StartedUp(env, fs.files, now).Some?
    ensures started.Some? ==> fresh(started.value) && started.value.View() == StartedUp(env, fs.files, now).value
  {
    var f := new Server(env.machines);
    var ok := LoadPersistedState(f, fs, env.format, env.path);
    if !ok {
      return None;
    }
    if |f.it| == 0 {
      LoadDefaultInstanceTypes(f, now);
    }
    return Some(f);
  }

  // ----- The state machine -----

  /** `before` is what memory held when the request being saved came in. */
  datatype Phase = Down | Idle | Writing(data: string, before: Tables) | Renaming(data: string, before: Tables)

  /** `settled` records the tables of the last completed save, `behind` that memory has moved on without one:
      a save failed, or a restart could not bring everything back. */
  datatype World = World(mem: Tables, phase: Phase, files: Files, settled: Option<Tables>, behind: bool)

  datatype Event =
    | Serve(rpc: Rpc, snap: Snapshot, order: Order)
    | SaveOnShutdown(snap: Snapshot, order: Order)
    | SaveFailsEarly
    | WriteTmp
    | WriteFails(partial: string)
    | Rename
    | RenameFails(cleaned: bool)
    | Crash(torn: Option<string>)
    | Restart(now: string)

  ghost predicate Saves(t: Tables, rpc: Rpc)
    requires WellFormed(rpc)
  {
    Apply(t, rpc).1.Succeeded? && IsMutatingMethod(FullMethod(rpc))
  }

  ghost predicate Enabled(env: Env, w: World, e: Event) {
    match e
    case Serve(rpc, snap, order) =>
      w.phase.Idle? && WellFormed(rpc) && (Saves(w.mem, rpc) ==> Exports(snap, Apply(w.mem, rpc).0, order))
    case SaveOnShutdown(snap, order) => w.phase.Idle? && Exports(snap, w.mem, order)
    case SaveFailsEarly => w.phase.Writing?
    case WriteTmp => w.phase.Writing?
    case WriteFails(_) => w.phase.Writing?
    case Rename => w.phase.Renaming? && TmpOf(env.path) in w.files
    case RenameFails(_) => w.phase.Renaming?
    case Crash(_) => !w.phase.Down?
    case Restart(now) => w.phase.Down? && StartedUp(env, w.files, now).Some?
  }

  /** A save begins by encoding; a message that cannot be encoded ends it at once. */
  ghost function Saving(env: Env, w: World, snap: Snapshot, before: Tables): World {
    var data := Encode(env.format, snap);
    if data.Some? then w.(phase := Writing(data.value, before)) else w.(behind := true)
  }

  ghost function Failed(w: World): World {
    w.(phase := Idle, behind := true)
  }

  ghost function Step(env: Env, w: World, e: Event): World
    requires Enabled(env, w, e)
  {
    match e
    case Serve(rpc, snap, order) =>
      var (t, verdict) := Apply(w.mem, rpc);
      if verdict.Died? then w.(phase := Down)
      else if Saves(w.mem, rpc) then Saving(env, w.(mem := t), snap, w.mem)
      else w.(mem := t)
    case SaveOnShutdown(snap, order) => Saving(env, w, snap, w.mem)
    case SaveFailsEarly => Failed(w)
    case WriteTmp =>
      w.(files := Written(w.files, TmpOf(env.path), w.phase.data), phase := Renaming(w.phase.data, w.phase.before))
    case WriteFails(partial) => Failed(w.(files := Written(w.files, TmpOf(env.path), partial)))
    case Rename =>
      w.(files := Renamed(w.files, TmpOf(env.path), env.path), phase := Idle, settled := Some(w.mem), behind := false)
    case RenameFails(cleaned) => Failed(if cleaned then w.(files := w.files - {TmpOf(env.path)}) else w)
    case Crash(torn) =>
      w.(phase := Down,
         files := if w.phase.Writing? && torn.Some? then Written(w.files, TmpOf(env.path), torn.value) else w.files)
    case Restart(now) =>
      var mem := StartedUp(env, w.files, now).value;
      w.(mem := mem, phase := Idle, behind := w.settled.Some? && w.settled.value != mem)
  }

  ghost predicate ValidRun(env: Env, w: World, es: seq<Event>)
    decreases |es|
  {
    es == [] || (Enabled(env, w, es[0]) && ValidRun(env, Step(env, w, es[0]), es[1..]))
  }

  ghost function Run(env: Env, w: World, es: seq<Event>): World
    requires ValidRun(env, w, es)
    decreases |es|
  {
    if es == [] then w else Run(env, Step(env, w, es[0]), es[1..])
  }

  /** Nothing was ever saved; other files, a leftover temporary file included, are arbitrary. */
  ghost predicate Initial(env: Env, w: World) {
    w.phase.Down? && env.path !in w.files && w.settled.None?
  }

  // ----- The invariant -----

  ghost predicate Covers(env: Env, t: Tables) {
    Sound(t) && env.machines.Keys <= t.m.Keys
  }

  ghost predicate FileInv(env: Env, w: World) {
    if env.path in w.files
    then w.settled.Some? && Covers(env, w.settled.value) && Holds(env.format, w.files[env.path], w.settled.value)
    else w.settled.None?
  }

  ghost predicate PhaseInv(env: Env, w: World) {
    match w.phase
    case Down => true
    case Idle => !w.behind && w.settled.Some? ==> w.settled.value == w.mem
    case Writing(data, before) =>
      Holds(env.format, data, w.mem) && (!w.behind && w.settled.Some? ==> w.settled.value == before)
    case Renaming(data, before) =>
      && Holds(env.format, data, w.mem) && (!w.behind && w.settled.Some? ==> w.settled.value == before)
      && TmpOf(env.path) in w.files && w.files[TmpOf(env.path)] == data
  }

  ghost predicate Inv(env: Env, w: World) {
    FileInv(env, w) && PhaseInv(env, w) && (!w.phase.Down? ==> Covers(env, w.mem))
  }

  lemma MachinesStay(env: Env, t: Tables, rpc: Rpc)
    requires Covers(env, t) && WellFormed(rpc)
    ensures Covers(env, Apply(t, rpc).0)
  {
    StepSound(t, rpc);
    MachinesNeverLeave(t, rpc);
  }

  lemma MachinesNeverLeave(t: Tables, rpc: Rpc)
    requires WellFormed(rpc)
    ensures t.m.Keys <= Apply(t, rpc).0.m.Keys
  {
  }

  lemma ServeKeeps(env: Env, w: World, e: Event)
    requires Inv(env, w) && e.Serve? && Enabled(env, w, e)
    ensures Inv(env, Step(env, w, e))
  {
    MachinesStay(env, w.mem, e.rpc);
    RefusalsChangeNothing(w.mem, e.rpc);
    UnsavedRequestsChangeNothing(w.mem, e.rpc);
  }

  lemma WriteKeeps(env: Env, w: World, e: Event)
    requires Inv(env, w) && Enabled(env, w, e) && (e.WriteTmp? || e.WriteFails?)
    ensures Inv(env, Step(env, w, e))
  {
  }

  lemma SaveKeeps(env: Env, w: World, e: Event)
    requires Inv(env, w) && Enabled(env, w, e) && (e.SaveFailsEarly? || e.SaveOnShutdown?)
    ensures Inv(env, Step(env, w, e))
  {
  }

  lemma RenameKeeps(env: Env, w: World, e: Event)
    requires Inv(env, w) && Enabled(env, w, e) && (e.Rename? || e.RenameFails?)
    ensures Inv(env, Step(env, w, e))
  {
  }

  lemma CrashKeeps(env: Env, w: World, e: Event)
    requires Inv(env, w) && Enabled(env, w, e) && e.Crash?
    ensures Inv(env, Step(env, w, e))
  {
  }

  lemma DecodeHeld(env: Env, data: string, t: Tables) returns (s: Snapshot, o: Order)
    requires ValidEnv(env) && Holds(env.format, data, t)
    ensures Exports(s, t, o) && Decode(env.format, data) == Some(s)
  {
    s, o :| Exports(s, t, o) && Encode(env.format, s) == Some(data);
    EncodeRoundTrip(env.format, s);
  }

  /** What a restart brings back of saved tables. */
  ghost function Recovered(env: Env, t: Tables, now: string): Tables {
    WithDefaults(RebuiltTables(env.machines, t), now)
  }

  /** A restart never fails on the state file, and rebuilds exactly what the last completed save recorded. */
  lemma RestartRecovers(env: Env, w: World, now: string)
    requires ValidEnv(env) && FileInv(env, w)
    ensures StartedUp(env, w.files, now).Some?
    ensures w.settled.Some? ==> StartedUp(env, w.files, now).value == Recovered(env, w.settled.value, now)
    ensures w.settled.None? ==> StartedUp(env, w.files, now).value == WithDefaults(Fresh(env.machines), now)
  {
    if w.settled.Some? {
      var s, o := DecodeHeld(env, w.files[env.path], w.settled.value);
      ImportOfExport(env.machines, w.settled.value, s, o);
    }
  }

  lemma RecoveredCovers(env: Env, t: Tables, now: string)
    requires ValidEnv(env) && Covers(env, t)
    ensures Covers(env, Recovered(env, t, now))
  {
    RebuiltCovers(env, t);
    DefaultsCover(env, RebuiltTables(env.machines, t), now);
  }

  lemma RebuiltCovers(env: Env, t: Tables)
    requires ValidEnv(env) && Covers(env, t)
    ensures Covers(env, RebuiltTables(env.machines, t))
  {
  }

  lemma DefaultsCover(env: Env, t: Tables, now: string)
    requires Covers(env, t)
    ensures Covers(env, WithDefaults(t, now))
  {
    DefaultTypesNamed(now);
  }

  lemma DefaultTypesNamed(now: string)
    ensures Types(AddTypes(map[], DEFAULT_TYPES, now)) && AddTypes(map[], DEFAULT_TYPES, now) != map[]
  {
    assert "dgx-h100-8x" in DEFAULT_TYPES;
    assert "" !in DEFAULT_TYPES;
  }

  lemma RestartKeeps(env: Env, w: World, now: string)
    requires ValidEnv(env) && Inv(env, w) && Enabled(env, w, Restart(now))
    ensures Inv(env, Step(env, w, Restart(now)))
  {
    RestartRecovers(env, w, now);
    RestartCovers(env, w, StartedUp(env, w.files, now).value, now);
  }

  lemma RestartCovers(env: Env, w: World, mem: Tables, now: string)
    requires ValidEnv(env) && FileInv(env, w)
    requires mem == if w.settled.Some? then Recovered(env, w.settled.value, now) else WithDefaults(Fresh(env.machines), now)
    ensures Covers(env, mem)
  {
    if w.settled.Some? {
      RecoveredCovers(env, w.settled.value, now);
    } else {
      DefaultTypesNamed(now);
    }
  }

  lemma StepKeeps(env: Env, w: World, e: Event)
    requires ValidEnv(env) && Inv(env, w) && Enabled(env, w, e)
    ensures Inv(env, Step(env, w, e))
  {
    match e
    case Serve(_, _, _) => ServeKeeps(env, w, e);
    case Restart(now) => RestartKeeps(env, w, now);
    case Crash(_) => CrashKeeps(env, w, e);
    case Rename | RenameFails(_) => RenameKeeps(env, w, e);
    case WriteTmp | WriteFails(_) => WriteKeeps(env, w, e);
    case SaveFailsEarly | SaveOnShutdown(_, _) => SaveKeeps(env, w, e);
  }

  lemma {:induction false} RunKeeps(env: Env, w: World, es: seq<Event>)
    requires ValidEnv(env) && Inv(env, w) && ValidRun(env, w, es)
    ensures Inv(env, Run(env, w, es))
    decreases |es|
  {
    if es != [] {
      StepKeeps(env, w, es[0]);
      RunKeeps(env, Step(env, w, es[0]), es[1..]);
    }
  }

  // ----- Durability -----

  /** What a restart can bring back unchanged. */
  predicate Restorable(t: Tables) {
    "" !in t.ins && "" !in t.m && t.it != map[]
  }

  /** Saved tables survive exactly when some instance type is left and neither an instance nor a machine
      sits under the empty id. */
  lemma RecoveredExactly(env: Env, t: Tables, now: string)
    requires ValidEnv(env) && Covers(env, t)
    ensures Recovered(env, t, now) == t <==> Restorable(t)
  {
    RebuiltExactly(env.machines, t.m);
    RebuiltFromNothing(t.ins);
    DefaultTypesNamed(now);
    assert "" !in t.ins - {""};
  }

  /** The value a kill at this point falls back to: memory when idle, else what the request being saved found. */
  ghost function FallBack(w: World): Tables
    requires !w.phase.Down?
  {
    if w.phase.Idle? then w.mem else w.phase.before
  }

  /** Killing the process at any point of any run and restarting it brings back the value after the last saved
      request, exactly when that value is restorable. */
  lemma KilledAnywhere(env: Env, start: World, es: seq<Event>, torn: Option<string>, now: string)
    requires ValidEnv(env) && Initial(env, start) && ValidRun(env, start, es)
    requires
      var w := Run(env, start, es);
      !w.phase.Down? && w.settled.Some? && !w.behind
    ensures
      var w := Run(env, start, es);
      var down := Step(env, w, Crash(torn));
      && Enabled(env, down, Restart(now))
      && (Step(env, down, Restart(now)).mem == FallBack(w) <==> Restorable(FallBack(w)))
  {
    RunKeeps(env, start, es);
    var w := Run(env, start, es);
    var down := Step(env, w, Crash(torn));
    CrashKeeps(env, w, Crash(torn));
    RestartRecovers(env, down, now);
    RecoveredExactly(env, FallBack(w), now);
  }

  /** Over every run, crashes and restarts included, the tables being served satisfy the invariant: in particular
      no two peerings join the same pair of VPCs and every OS image has its operating system entry. */
  lemma ServedTablesSound(env: Env, start: World, es: seq<Event>)
    requires ValidEnv(env) && Initial(env, start) && ValidRun(env, start, es)
    ensures var w := Run(env, start, es); !w.phase.Down? ==> Sound(w.mem)
  {
    RunKeeps(env, start, es);
  }

  // ----- The life cycle of an instance across restarts -----

  /** Reads of one instance: those memory shows, and those the last completed save recorded. */
  datatype Count = Count(shown: nat, saved: nat)

  ghost function Counted(e: Event, id: string, c: Count): Count {
    match e
    case Serve(rpc, _, _) => c.(shown := c.shown + ReadsIn(rpc, id))
    case Rename => c.(saved := c.shown)
    case Restart(_) => c.(shown := c.saved)
    case _ => c
  }

  ghost function CountedOver(es: seq<Event>, id: string, c: Count): Count
    decreases |es|
  {
    if es == [] then c else CountedOver(es[1..], id, Counted(es[0], id, c))
  }

  /** Memory and the last completed save hold the instance, each as far on as its reads say. */
  ghost predicate Lives(w: World, id: string, first: Instance, c: Count) {
    && id in w.mem.ins && Grown(first, w.mem.ins[id], c.shown)
    && w.settled.Some? && id in w.settled.value.ins && Grown(first, w.settled.value.ins[id], c.saved)
  }

  ghost predicate Releases(e: Event, id: string) {
    e.Serve? && e.rpc == ReleaseInstance(Some(id))
  }

  lemma ServeLives(env: Env, w: World, e: Event, id: string, first: Instance, c: Count)
    requires Lives(w, id, first, c) && e.Serve? && Enabled(env, w, e) && !Releases(e, id)
    ensures Lives(Step(env, w, e), id, first, Counted(e, id, c))
  {
    var t := Apply(w.mem, e.rpc).0;
    var m := c.shown + ReadsIn(e.rpc, id);
    StepGrows(w.mem, e.rpc, id, c.shown);
    GrownTransitive(first, w.mem.ins[id], c.shown, t.ins[id], m);
    if Apply(w.mem, e.rpc).1.Died? {
      DiesExactly(w.mem, e.rpc);
    }
  }

  /** An instance under a proper id comes back from a restart as it was saved. */
  lemma RestartedInstance(env: Env, w: World, now: string, id: string)
    requires ValidEnv(env) && FileInv(env, w) && Enabled(env, w, Restart(now))
    requires id != "" && w.settled.Some? && id in w.settled.value.ins
    ensures
      var w' := Step(env, w, Restart(now));
      w'.settled == w.settled && id in w'.mem.ins && w'.mem.ins[id] == w.settled.value.ins[id]
  {
    RestartedTables(env, w, now);
    RecoveredInstance(env, w.settled.value, now, id);
  }

  lemma RestartedTables(env: Env, w: World, now: string)
    requires ValidEnv(env) && FileInv(env, w) && Enabled(env, w, Restart(now)) && w.settled.Some?
    ensures
      var w' := Step(env, w, Restart(now));
      w'.settled == w.settled && w'.mem == Recovered(env, w.settled.value, now)
  {
    RestartRecovers(env, w, now);
    RestartStep(env, w, now);
  }

  lemma RecoveredInstance(env: Env, t: Tables, now: string, id: string)
    requires id in t.ins && id != ""
    ensures id in Recovered(env, t, now).ins && Recovered(env, t, now).ins[id] == t.ins[id]
  {
  }

  lemma RestartStep(env: Env, w: World, now: string)
    requires Enabled(env, w, Restart(now))
    ensures
      var w' := Step(env, w, Restart(now));
      w'.settled == w.settled && w'.mem == StartedUp(env, w.files, now).value
  {
  }

  lemma RestartLives(env: Env, w: World, now: string, id: string, first: Instance, c: Count)
    requires ValidEnv(env) && FileInv(env, w) && Enabled(env, w, Restart(now))
    requires id != "" && Lives(w, id, first, c)
    ensures Lives(Step(env, w, Restart(now)), id, first, Counted(Restart(now), id, c))
  {
    RestartedInstance(env, w, now, id);
  }

  lemma OtherLives(env: Env, w: World, e: Event, id: string, first: Instance, c: Count)
    requires Lives(w, id, first, c) && Enabled(env, w, e) && !e.Serve? && !e.Restart?
    ensures Lives(Step(env, w, e), id, first, Counted(e, id, c))
  {
    OtherStep(env, w, e);
  }

  /** Only requests and restarts change memory, only a completed rename changes what counts as saved. */
  lemma OtherStep(env: Env, w: World, e: Event)
    requires Enabled(env, w, e) && !e.Serve? && !e.Restart?
    ensures
      var w' := Step(env, w, e);
      w'.mem == w.mem && w'.settled == if e.Rename? then Some(w.mem) else w.settled
  {
  }

  lemma StepLives(env: Env, w: World, e: Event, id: string, first: Instance, c: Count)
    requires ValidEnv(env) && FileInv(env, w) && Enabled(env, w, e) && !Releases(e, id)
    requires id != "" && Lives(w, id, first, c)
    ensures Lives(Step(env, w, e), id, first, Counted(e, id, c))
  {
    if e.Serve? {
      ServeLives(env, w, e, id, first, c);
    } else if e.Restart? {
      RestartLives(env, w, e.now, id, first, c);
    } else {
      OtherLives(env, w, e, id, first, c);
    }
  }

  lemma {:induction false} RunLives(env: Env, w: World, es: seq<Event>, id: string, first: Instance, c: Count)
    requires ValidEnv(env) && Inv(env, w) && ValidRun(env, w, es) && id != "" && Lives(w, id, first, c)
    requires forall e | e in es :: !Releases(e, id)
    ensures Lives(Run(env, w, es), id, first, CountedOver(es, id, c))
    decreases |es|
  {
    if es != [] {
      StepLives(env, w, es[0], id, first, c);
      StepKeeps(env, w, es[0]);
      RunLives(env, Step(env, w, es[0]), es[1..], id, first, Counted(es[0], id, c));
    }
  }

  /** From any moment at which an instance with a proper id has been saved, over every run without its release,
      with any failing saves, kills and restarts: it is there, and its state is given by the reads since, except
      that a restart forgets the reads no completed save has recorded. Machine, network and interface status stay. */
  lemma DurableLifeCycle(env: Env, start: World, before: seq<Event>, es: seq<Event>, id: string, n: nat)
    requires ValidEnv(env) && Initial(env, start) && ValidRun(env, start, before)
    requires
      var w := Run(env, start, before);
      && w.phase.Idle? && w.settled.Some? && !w.behind && ValidRun(env, w, es)
      && id != "" && id in w.mem.ins && w.mem.ins[id].status.Some?
      && w.mem.ins[id].status.value.state == StateAfter(n)
    requires forall e | e in es :: !Releases(e, id)
    ensures
      var w := Run(env, start, before);
      var now := Run(env, w, es).mem.ins;
      id in now && Grown(w.mem.ins[id], now[id], CountedOver(es, id, Count(n, n)).shown)
  {
    RunKeeps(env, start, before);
    var w := Run(env, start, before);
    assert w.mem.ins[id].status.value == w.mem.ins[id].status.value.(state := StateAfter(n));
    RunLives(env, w, es, id, w.mem.ins[id], Count(n, n));
  }

  /** A request that deletes the last instance type cannot be made durable: the defaults come back. */
  lemma LastTypeComesBack(env: Env, t: Tables, id: string, now: string)
    requires ValidEnv(env) && Covers(env, t) && t.it.Keys == {id} && id !in DEFAULT_TYPES
    ensures
      var (after, verdict) := Apply(t, DeleteInstanceType(id));
      && verdict.Succeeded? && after.it == map[]
      && Recovered(env, after, now).it.Keys == set k | k in DEFAULT_TYPES
  {
    assert id in t.it && t.it - {id} == map[];
  }
}
