/** Serving one request with its save (internal/server/server.go): what the handler and the interceptor do to memory
    and to the file system is a run of the state machine of `Durability`. */
module Interceptor {
  import opened Outcomes
  import opened Tables
  import opened Store
  import opened Persist
  import opened StateMethods
  import opened Handlers
  import opened Durability

  predicate OnInstancesOrPeerings(rpc: Rpc) {
    || rpc.AllocateInstance? || rpc.ReleaseInstance? || rpc.UpdateInstanceConfig? || rpc.FindInstancesByIds?
    || rpc.CreateVpcPeering? || rpc.DeleteVpcPeering?
  }

  /** The requests whose handlers are methods of `Handlers.Server`; `Other` leaves the nine tables alone. */
  predicate HasHandler(rpc: Rpc) {
    || OnInstancesOrPeerings(rpc) || rpc.CreateOsImage? || rpc.UpdateOsImage? || rpc.DeleteOsImage?
    || rpc.CreateOperatingSystem? || rpc.UpdateOperatingSystem? || rpc.Other?
  }

  method DispatchInstances(f: Server, rpc: Rpc) returns (verdict: Verdict)
    requires OnInstancesOrPeerings(rpc) && WellFormed(rpc)
    modifies f
    ensures verdict == Apply(old(f.View()), rpc).1
    ensures !verdict.Died? ==> f.View() == Apply(old(f.View()), rpc).0
  {
    match rpc
    case AllocateInstance(req, uuid, draws) =>
      var reply := f.AllocateInstance(req, uuid, draws);
      return VerdictOf(reply);
    case ReleaseInstance(id) =>
      var reply := f.ReleaseInstance(id);
      return VerdictOf(reply);
    case UpdateInstanceConfig(id, config, metadata, uuid) =>
      var reply := f.UpdateInstanceConfig(id, config, metadata, uuid);
      return VerdictOf(reply);
    case FindInstancesByIds(ids) =>
      var found := f.FindInstancesByIds(ids);
      return Succeeded;
    case CreateVpcPeering(id, vpc, peer, uuid) =>
      var reply := f.CreateVpcPeering(id, vpc, peer, uuid);
      return VerdictOf(reply);
    case DeleteVpcPeering(id) =>
      var reply := f.DeleteVpcPeering(id);
      return VerdictOf(reply);
  }

  method Dispatch(f: Server, rpc: Rpc) returns (verdict: Verdict)
    requires HasHandler(rpc) && WellFormed(rpc)
    modifies f
    ensures verdict == Apply(old(f.View()), rpc).1
    ensures !verdict.Died? ==> f.View() == Apply(old(f.View()), rpc).0
  {
    if OnInstancesOrPeerings(rpc) {
      verdict := DispatchInstances(f, rpc);
      return;
    }
    match rpc
    case CreateOsImage(image, uuid, now) =>
      var reply := f.CreateOsImage(image, uuid, now);
      return VerdictOf(reply);
    case UpdateOsImage(image, now) =>
      var reply := f.UpdateOsImage(image, now);
      return VerdictOf(reply);
    case DeleteOsImage(id) =>
      var reply := f.DeleteOsImage(id);
      return VerdictOf(reply);
    case CreateOperatingSystem(os, uuid, now) =>
      var reply := f.CreateOperatingSystem(os, uuid, now);
      return VerdictOf(reply);
    case UpdateOperatingSystem(id, update, now) =>
      var reply := f.UpdateOperatingSystem(id, update, now);
      return VerdictOf(reply);
    case Other(_) =>
      return Succeeded;
  }

  /** What a save does behind a request, by the faults it meets. */
  ghost function SaveEvents(env: Env, snap: Snapshot, faults: Faults): seq<Event> {
    if Encode(env.format, snap).None? then []
    else if faults.mkdirFails then [SaveFailsEarly]
    else if faults.shortWrite.Some? then [WriteFails(faults.shortWrite.value)]
    else if faults.renameFails then [WriteTmp, RenameFails(!faults.removeFails)]
    else [WriteTmp, Rename]
  }

  lemma OneEvent(env: Env, w: World, e: Event)
    requires Enabled(env, w, e)
    ensures ValidRun(env, w, [e]) && Run(env, w, [e]) == Step(env, w, e)
  {
    assert [e][1..] == [];
    assert Run(env, Step(env, w, e), []) == Step(env, w, e);
  }

  lemma OneMore(env: Env, w: World, e: Event, es: seq<Event>)
    requires Enabled(env, w, e) && ValidRun(env, Step(env, w, e), es)
    ensures ValidRun(env, w, [e] + es) && Run(env, w, [e] + es) == Run(env, Step(env, w, e), es)
  {
    assert ([e] + es)[1..] == es;
  }

  lemma TwoEvents(env: Env, w: World, d: Event, e: Event)
    requires Enabled(env, w, d) && Enabled(env, Step(env, w, d), e)
    ensures ValidRun(env, w, [d, e]) && Run(env, w, [d, e]) == Step(env, Step(env, w, d), e)
  {
    OneEvent(env, Step(env, w, d), e);
    OneMore(env, w, d, [e]);
    assert [d, e] == [d] + [e];
  }

  /** From the moment the tables have changed, the steps of the save end with the files the save leaves, and record
      the tables exactly when it succeeds. */
  lemma SaveRun(env: Env, w: World, snap: Snapshot, before: Tables, faults: Faults)
    requires w.phase.Idle?
    ensures
      var started := Saving(env, w, snap, before);
      var es := SaveEvents(env, snap, faults);
      && ValidRun(env, started, es)
      && Run(env, started, es) ==
         World(w.mem, Idle, SavedFiles(env.format, w.files, env.path, snap, faults),
               if SaveSucceeds(env.format, snap, faults) then Some(w.mem) else w.settled,
               !SaveSucceeds(env.format, snap, faults))
  {
    var started := Saving(env, w, snap, before);
    var data, tmp := Encode(env.format, snap), TmpOf(env.path);
    if data.None? {
      assert Run(env, started, []) == started;
    } else if faults.mkdirFails {
      OneEvent(env, started, SaveFailsEarly);
    } else if faults.shortWrite.Some? {
      OneEvent(env, started, WriteFails(faults.shortWrite.value));
    } else {
      var last := if faults.renameFails then RenameFails(!faults.removeFails) else Rename;
      TwoEvents(env, started, WriteTmp, last);
      WrittenThenRenamed(w.files, tmp, env.path, data.value);
      TmpOnly(w.files, tmp, data.value);
    }
  }

  /** The run of one request: it is served, and saved if it has to be. */
  ghost function RequestRun(env: Env, w: World, rpc: Rpc, snap: Snapshot, order: Order, faults: Faults): seq<Event>
    requires WellFormed(rpc)
  {
    [Serve(rpc, snap, order)] + if Saves(w.mem, rpc) then SaveEvents(env, snap, faults) else []
  }

  lemma SavedRequest(env: Env, w: World, rpc: Rpc, snap: Snapshot, order: Order, faults: Faults)
    requires w.phase.Idle? && WellFormed(rpc) && Saves(w.mem, rpc) && Exports(snap, Apply(w.mem, rpc).0, order)
    ensures
      var es, t, ok := RequestRun(env, w, rpc, snap, order, faults), Apply(w.mem, rpc).0, SaveSucceeds(env.format, snap, faults);
      && ValidRun(env, w, es)
      && Run(env, w, es) == World(t, Idle, SavedFiles(env.format, w.files, env.path, snap, faults),
                                  if ok then Some(t) else w.settled, !ok)
      && (ok ==> Rename in es)
  {
    var serve, served := Serve(rpc, snap, order), w.(mem := Apply(w.mem, rpc).0);
    SaveRun(env, served, snap, w.mem, faults);
    assert Step(env, w, serve) == Saving(env, served, snap, w.mem);
    OneMore(env, w, serve, SaveEvents(env, snap, faults));
  }

  lemma UnsavedRequest(env: Env, w: World, rpc: Rpc, snap: Snapshot, order: Order, faults: Faults)
    requires w.phase.Idle? && WellFormed(rpc) && !Saves(w.mem, rpc)
    ensures
      var es := RequestRun(env, w, rpc, snap, order, faults);
      && ValidRun(env, w, es)
      && Run(env, w, es) ==
         if Apply(w.mem, rpc).1.Died? then w.(phase := Down) else w.(mem := Apply(w.mem, rpc).0)
  {
    OneEvent(env, w, Serve(rpc, snap, order));
    assert [Serve(rpc, snap, order)] + [] == [Serve(rpc, snap, order)];
  }

  /** The interceptor behind any handler that has taken the transition of its request. Memory and the files end as on
      the run that serves the request and takes the steps of its save; the tables count as saved exactly when the
      request has to be followed by a save and no step of it fails. */
  method FinishRequest(env: Env, f: Server, fs: FileSystem, rpc: Rpc, verdict: Verdict, faults: Faults, ghost w: World)
    returns (saved: bool, ghost es: seq<Event>)
    requires env.path != "" && WellFormed(rpc) && w.phase.Idle? && w.files == fs.files
    requires verdict == Apply(w.mem, rpc).1 && (!verdict.Died? ==> f.View() == Apply(w.mem, rpc).0)
    modifies fs
    ensures ValidRun(env, w, es) && es != [] && es[0].Serve? && es[0].rpc == rpc
    ensures Run(env, w, es).files == fs.files
    ensures
      var w' := Run(env, w, es);
      if verdict.Died? then w'.phase.Down? && !saved
      else
        && w'.phase.Idle? && w'.mem == f.View()
        && (saved ==> Rename in es && w'.settled == Some(f.View()) && !w'.behind)
        && (!saved ==> w'.settled == w.settled && w'.behind == (w.behind || Saves(w.mem, rpc)))
  {
    ghost var snap, order;
    saved, snap, order := AfterHandler(f, fs, env.format, env.path, FullMethod(rpc), verdict.Succeeded?, faults);
    es := RequestRun(env, w, rpc, snap, order, faults);
    if Saves(w.mem, rpc) {
      SavedRequest(env, w, rpc, snap, order, faults);
    } else {
      UnsavedRequest(env, w, rpc, snap, order, faults);
    }
  }

  /** A request as the server runs it: the handler, then the interceptor. */
  method Intercept(env: Env, f: Server, fs: FileSystem, rpc: Rpc, faults: Faults, ghost w: World)
    returns (verdict: Verdict, saved: bool, ghost es: seq<Event>)
    requires env.path != "" && HasHandler(rpc) && WellFormed(rpc)
    requires w.phase.Idle? && w.mem == f.View() && w.files == fs.files
    modifies f, fs
    ensures verdict == Apply(old(f.View()), rpc).1
    ensures ValidRun(env, w, es) && es != [] && es[0].Serve? && es[0].rpc == rpc
    ensures Run(env, w, es).files == fs.files
    ensures
      var w' := Run(env, w, es);
      if verdict.Died? then w'.phase.Down? && !saved
      else
        && w'.phase.Idle? && w'.mem == f.View()
        && (saved ==> Rename in es && w'.settled == Some(f.View()) && !w'.behind)
        && (!saved ==> w'.settled == w.settled && w'.behind == (w.behind || Saves(w.mem, rpc)))
  {
    verdict := Dispatch(f, rpc);
    saved, es := FinishRequest(env, f, fs, rpc, verdict, faults, w);
  }
}
