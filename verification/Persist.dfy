/** Exporting the nine maps as lists in no particular order, and rebuilding them (internal/server/persist.go). */
module Persist {
  import opened Outcomes
  import opened Tables
  import opened TableRuns
  import opened Store
  import opened Handlers
  import opened StateMethods

  // ----- One map as a list -----

  /** The values of a map, each entry once, in the order of `keys`. */
  ghost predicate Lists<V(!new)>(values: seq<V>, m: map<string, V>, keys: seq<string>) {
    && |values| == |keys|
    && (forall k :: k in keys <==> k in m)
    && (forall i, j | 0 <= i < j < |keys| :: keys[i] != keys[j])
    && (forall i | 0 <= i < |keys| :: m[keys[i]] == values[i])
  }

  method MapValues<V(!new)>(m: map<string, V>) returns (out: seq<V>, ghost keys: seq<string>)
    ensures Lists(out, m, keys)
  {
    out, keys := [], [];
    var rest := m.Keys;
    while rest != {}
      invariant rest <= m.Keys && |out| == |keys|
      invariant forall k :: k in keys <==> k in m.Keys - rest
      invariant forall i, j | 0 <= i < j < |keys| :: keys[i] != keys[j]
      invariant forall i | 0 <= i < |keys| :: keys[i] in m && m[keys[i]] == out[i]
      decreases |rest|
    {
      var k :| k in rest;
      assert k !in keys;
      out := out + [m[k]];
      keys := keys + [k];
      rest := rest - {k};
    }
  }

  /** One item of applySnapshot: items without an id are skipped, a later item wins. */
  function Put<V>(m: map<string, V>, id: Option<string>, item: V): map<string, V> {
    if id.None? || id.value == "" then m else m[id.value := item]
  }

  function PutAll<V>(base: map<string, V>, items: seq<V>, id: V -> Option<string>): map<string, V> {
    if items == [] then base
    else
      var n := |items| - 1;
      Put(PutAll(base, items[..n], id), id(items[n]), items[n])
  }

  /** What is left of a map that is listed and rebuilt on top of `base`: entries under the empty id are lost. */
  function Rebuilt<V>(base: map<string, V>, m: map<string, V>): map<string, V> {
    base + (m - {""})
  }

  /** Rebuilding from a listing in any order; every value knows its own key. */
  lemma PutAllListing<V(!new)>(
    base: map<string, V>, m: map<string, V>, values: seq<V>, keys: seq<string>, id: V -> Option<string>)
    requires Lists(values, m, keys)
    requires forall k | k in m :: id(m[k]) == Some(k)
    ensures PutAll(base, values, id) == Rebuilt(base, m)
  {
    PutAllPrefix(base, m, values, keys, id);
    var built := PutAll(base, values, id);
    assert built.Keys == Rebuilt(base, m).Keys;
  }

  lemma {:induction false} PutAllPrefix<V(!new)>(
    base: map<string, V>, m: map<string, V>, values: seq<V>, keys: seq<string>, id: V -> Option<string>)
    requires |values| == |keys| && forall i | 0 <= i < |keys| :: keys[i] in m && m[keys[i]] == values[i]
    requires forall k | k in m :: id(m[k]) == Some(k)
    ensures
      var built := PutAll(base, values, id);
      && (forall k :: k in built <==> k in base || (k in keys && k != ""))
      && (forall k | k in built :: built[k] == if k in keys && k != "" then m[k] else base[k])
  {
    if values != [] {
      var n := |values| - 1;
      PutAllPrefix(base, m, values[..n], keys[..n], id);
      assert keys == keys[..n] + [keys[n]];
    }
  }

  /** A map survives the round trip exactly when it has no entry under the empty id and covers the base. */
  lemma RebuiltExactly<V>(base: map<string, V>, m: map<string, V>)
    requires "" !in base
    ensures Rebuilt(base, m) == m <==> "" !in m && base.Keys <= m.Keys
  {
    if "" !in m && base.Keys <= m.Keys {
      assert m - {""} == m;
    }
    if Rebuilt(base, m) == m {
      assert "" !in Rebuilt(base, m);
      assert base.Keys <= Rebuilt(base, m).Keys;
    }
  }

  // ----- All nine maps -----

  function VpcId(x: Vpc): Option<string> { x.id }
  function SegmentId(x: NetworkSegment): Option<string> { x.id }
  function InstanceId(x: Instance): Option<string> { x.id }
  function MachineId(x: Machine): Option<string> { x.id }
  function PrefixId(x: VpcPrefix): Option<string> { x.id }
  function PeeringId(x: VpcPeering): Option<string> { x.id }
  function ImageKey(x: OsImage): Option<string> { if x.attributes.Some? then x.attributes.value.id else None }
  function OsId(x: OperatingSystem): Option<string> { x.id }
  function TypeId(x: InstanceType): Option<string> { Some(x.id) }

  function Applied(t: Tables, s: Snapshot): Tables {
    Tables(PutAll(t.v, s.vpcs, VpcId), PutAll(t.ns, s.networkSegments, SegmentId), PutAll(t.ins, s.instances, InstanceId),
           PutAll(t.m, s.machines, MachineId), PutAll(t.vp, s.vpcPrefixes, PrefixId), PutAll(t.vpp, s.vpcPeerings, PeeringId),
           PutAll(t.osi, s.osImages, ImageKey), PutAll(t.oss, s.operatingSystems, OsId), PutAll(t.it, s.instanceTypes, TypeId))
  }

  datatype Order = Order(v: seq<string>, ns: seq<string>, ins: seq<string>, m: seq<string>, vp: seq<string>,
                         vpp: seq<string>, osi: seq<string>, oss: seq<string>, it: seq<string>)

  /** `s` is an export of `t`, its lists in the given order. */
  ghost predicate Exports(s: Snapshot, t: Tables, o: Order) {
    && s.version == STATE_VERSION
    && Lists(s.vpcs, t.v, o.v) && Lists(s.networkSegments, t.ns, o.ns) && Lists(s.instances, t.ins, o.ins)
    && Lists(s.machines, t.m, o.m) && Lists(s.vpcPrefixes, t.vp, o.vp) && Lists(s.vpcPeerings, t.vpp, o.vpp)
    && Lists(s.osImages, t.osi, o.osi) && Lists(s.operatingSystems, t.oss, o.oss)
    && Lists(s.instanceTypes, t.it, o.it)
  }

  /** A server that knows only its inventory. */
  function Fresh(machines: map<string, Machine>): Tables {
    Tables(map[], map[], map[], machines, map[], map[], map[], map[], map[])
  }

  /** The tables after loading an export of `t` into a fresh server. */
  function RebuiltTables(machines: map<string, Machine>, t: Tables): Tables {
    t.(ins := t.ins - {""}, m := Rebuilt(machines, t.m))
  }

  lemma RebuiltFromNothing<V>(m: map<string, V>)
    ensures Rebuilt(map[], m) == m - {""}
    ensures "" !in m ==> m - {""} == m
  {
  }

  /** Loading an export, in whatever order it lists the maps, rebuilds them; only entries under the empty id are
      lost, and the invariant leaves those to instances and machines. */
  lemma ImportOfExport(machines: map<string, Machine>, t: Tables, s: Snapshot, o: Order)
    requires Sound(t) && Exports(s, t, o)
    ensures Applied(Fresh(machines), s) == RebuiltTables(machines, t)
  {
    PutAllListing(map[], t.v, s.vpcs, o.v, VpcId);
    PutAllListing(map[], t.ns, s.networkSegments, o.ns, SegmentId);
    PutAllListing(map[], t.ins, s.instances, o.ins, InstanceId);
    PutAllListing(machines, t.m, s.machines, o.m, MachineId);
    PutAllListing(map[], t.vp, s.vpcPrefixes, o.vp, PrefixId);
    PutAllListing(map[], t.vpp, s.vpcPeerings, o.vpp, PeeringId);
    PutAllListing(map[], t.osi, s.osImages, o.osi, ImageKey);
    PutAllListing(map[], t.oss, s.operatingSystems, o.oss, OsId);
    PutAllListing(map[], t.it, s.instanceTypes, o.it, TypeId);
    RebuiltFromNothing(t.v);
    RebuiltFromNothing(t.ns);
    RebuiltFromNothing(t.ins);
    RebuiltFromNothing(t.vp);
    RebuiltFromNothing(t.vpp);
    RebuiltFromNothing(t.osi);
    RebuiltFromNothing(t.oss);
    RebuiltFromNothing(t.it);
  }

  // ----- The server's own methods -----

  method Restore<V(!new)>(base: map<string, V>, items: seq<V>, id: V -> Option<string>) returns (m: map<string, V>)
    ensures m == PutAll(base, items, id)
  {
    m := base;
    for k := 0 to |items|
      invariant m == PutAll(base, items[..k], id)
    {
      assert items[..k + 1][..k] == items[..k];
      var own := id(items[k]);
      if own.None? || own.value == "" {
        continue;
      }
      m := m[own.value := items[k]];
    }
    assert items[..|items|] == items;
  }

  method ApplySnapshot(f: Server, snap: Snapshot)
    modifies f
    ensures f.View() == Applied(old(f.View()), snap)
  {
    f.v := Restore(f.v, snap.vpcs, VpcId);
    f.ns := Restore(f.ns, snap.networkSegments, SegmentId);
    f.ins := Restore(f.ins, snap.instances, InstanceId);
    f.m := Restore(f.m, snap.machines, MachineId);
    f.vp := Restore(f.vp, snap.vpcPrefixes, PrefixId);
    f.vpp := Restore(f.vpp, snap.vpcPeerings, PeeringId);
    f.osi := Restore(f.osi, snap.osImages, ImageKey);
    f.oss := Restore(f.oss, snap.operatingSystems, OsId);
    f.it := Restore(f.it, snap.instanceTypes, TypeId);
  }

  method ExportSnapshot(f: Server) returns (snap: Snapshot, ghost order: Order)
    ensures Exports(snap, f.View(), order)
  {
    var vpcs, o1 := MapValues(f.v);
    var networkSegments, o2 := MapValues(f.ns);
    var instances, o3 := MapValues(f.ins);
    var machines, o4 := MapValues(f.m);
    var vpcPrefixes, o5 := MapValues(f.vp);
    var vpcPeerings, o6 := MapValues(f.vpp);
    var osImages, o7 := MapValues(f.osi);
    var operatingSystems, o8 := MapValues(f.oss);
    var instanceTypes, o9 := MapValues(f.it);
    snap := Snapshot(STATE_VERSION, vpcs, networkSegments, instances, machines, vpcPrefixes, vpcPeerings, osImages,
                     operatingSystems, instanceTypes);
    order := Order(o1, o2, o3, o4, o5, o6, o7, o8, o9);
  }

  /** The file is an encoded export of `t`. */
  ghost predicate Holds(format: Format, data: string, t: Tables) {
    exists s: Snapshot, o: Order :: Exports(s, t, o) && Encode(format, s) == Some(data)
  }

  lemma OnlyTheTarget(files: Files, tmp: string, path: string, data: string)
    ensures (files - {tmp})[path := data] - {path} == files - {path, tmp}
  {
  }

  method PersistState(f: Server, fs: FileSystem, format: Format, stateFile: string, faults: Faults)
    returns (ok: bool, ghost snap: Snapshot, ghost order: Order)
    modifies fs
    ensures stateFile != "" ==>
              && Exports(snap, f.View(), order) && (ok <==> SaveSucceeds(format, snap, faults))
              && fs.files == SavedFiles(format, old(fs.files), stateFile, snap, faults)
    ensures ok && stateFile != "" ==>
              && stateFile in fs.files && Holds(format, fs.files[stateFile], f.View())
              && fs.files - {stateFile} == old(fs.files) - {stateFile, TmpOf(stateFile)}
    ensures !ok ==> fs.files - {TmpOf(stateFile)} == old(fs.files) - {TmpOf(stateFile)}
    ensures stateFile == "" ==> ok && fs.files == old(fs.files)
  {
    if stateFile == "" {
      return true, EMPTY, Order([], [], [], [], [], [], [], [], []);
    }
    var exported;
    exported, order := ExportSnapshot(f);
    snap := exported;
    if Encode(format, exported).Some? {
      OnlyTheTarget(fs.files, TmpOf(stateFile), stateFile, Encode(format, exported).value);
    }
    ok := fs.Save(format, stateFile, exported, faults);
  }

  method LoadPersistedState(f: Server, fs: FileSystem, format: Format, stateFile: string) returns (ok: bool)
    modifies f
    ensures ok == (stateFile == "" || Loaded(format, fs.files, stateFile).Some?)
    ensures ok && stateFile != "" ==> f.View() == Applied(old(f.View()), Loaded(format, fs.files, stateFile).value)
    ensures !ok || stateFile == "" ==> f.View() == old(f.View())
  {
    if stateFile == "" {
      return true;
    }
    var snap := fs.Load(format, stateFile);
    if snap.None? {
      return false;
    }
    ApplySnapshot(f, snap.value);
    return true;
  }

  /** What the interceptor does once a handler is back: save after every successful request that is not
      classified as a read, and ignore a failing save. */
  method AfterHandler(f: Server, fs: FileSystem, format: Format, stateFile: string, fullMethod: string, succeeded: bool,
                      faults: Faults) returns (saved: bool, ghost snap: Snapshot, ghost order: Order)
    modifies fs
    ensures
      var due := succeeded && stateFile != "" && IsMutatingMethod(fullMethod);
      && (saved <==> due && SaveSucceeds(format, snap, faults))
      && (due ==> Exports(snap, f.View(), order))
      && fs.files == if due then SavedFiles(format, old(fs.files), stateFile, snap, faults) else old(fs.files)
    ensures saved ==> stateFile in fs.files && Holds(format, fs.files[stateFile], f.View())
    ensures !saved ==> fs.files - {TmpOf(stateFile)} == old(fs.files) - {TmpOf(stateFile)}
  {
    saved, snap, order := false, EMPTY, Order([], [], [], [], [], [], [], [], []);
    if !succeeded {
      return;
    }
    if stateFile != "" && IsMutatingMethod(fullMethod) {
      saved, snap, order := PersistState(f, fs, format, stateFile, faults);
    }
  }
}
