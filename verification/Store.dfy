/** The snapshot file (internal/statestore/store.go): encoding, loading, and saving by a temporary file. */
module Store {
  import opened Outcomes
  import opened Tables

  const STATE_VERSION := 1

  datatype Snapshot = Snapshot(
    version: int, vpcs: seq<Vpc>, networkSegments: seq<NetworkSegment>, instances: seq<Instance>,
    machines: seq<Machine>, vpcPrefixes: seq<VpcPrefix>, vpcPeerings: seq<VpcPeering>,
    osImages: seq<OsImage>, operatingSystems: seq<OperatingSystem>, instanceTypes: seq<InstanceType>)

  datatype Wire = Wire(
    version: int, vpcs: seq<string>, networkSegments: seq<string>, instances: seq<string>,
    machines: seq<string>, vpcPrefixes: seq<string>, vpcPeerings: seq<string>,
    osImages: seq<string>, operatingSystems: seq<string>, instanceTypes: seq<string>)

  /** The message encoder of one type; either direction can fail. */
  datatype Codec<!T> = Codec(enc: T -> Option<string>, dec: string -> Option<T>)

  /** Whatever encodes decodes to the same message. */
  ghost predicate Faithful<T(!new)>(c: Codec<T>) {
    forall x :: c.enc(x).Some? ==> c.dec(c.enc(x).value) == Some(x)
  }

  datatype Format = Format(
    vpc: Codec<Vpc>, networkSegment: Codec<NetworkSegment>, instance: Codec<Instance>, machine: Codec<Machine>,
    vpcPrefix: Codec<VpcPrefix>, vpcPeering: Codec<VpcPeering>, osImage: Codec<OsImage>,
    operatingSystem: Codec<OperatingSystem>, instanceType: Codec<InstanceType>, file: Codec<Wire>)

  ghost predicate FaithfulFormat(f: Format) {
    && Faithful(f.vpc) && Faithful(f.networkSegment) && Faithful(f.instance) && Faithful(f.machine)
    && Faithful(f.vpcPrefix) && Faithful(f.vpcPeering) && Faithful(f.osImage)
    && Faithful(f.operatingSystem) && Faithful(f.instanceType) && Faithful(f.file)
  }

  // ----- Lists of messages -----

  /** All items through one direction of a codec, or none when one fails. */
  function Through<A, B>(step: A -> Option<B>, items: seq<A>): (r: Option<seq<B>>)
    ensures r.Some? ==> |r.value| == |items| && forall k | 0 <= k < |items| :: step(items[k]) == Some(r.value[k])
    ensures r.None? ==> exists k | 0 <= k < |items| :: step(items[k]).None?
  {
    if items == [] then Some([])
    else
      var n := |items| - 1;
      var before := Through(step, items[..n]);
      if before.None? then
        assert exists k | 0 <= k < n :: step(items[..n][k]).None? && items[..n][k] == items[k];
        None
      else if step(items[n]).None? then None
      else Some(before.value + [step(items[n]).value])
  }

  lemma {:induction false} ThroughFails<A, B>(step: A -> Option<B>, items: seq<A>, k: nat)
    requires k < |items| && step(items[k]).None?
    ensures Through(step, items).None?
  {
    if k < |items| - 1 {
      ThroughFails(step, items[..|items| - 1], k);
    }
  }

  /** marshalProtoSlice and unmarshalProtoSlice: stop at the first failure. */
  method MapSlice<A, B>(step: A -> Option<B>, items: seq<A>) returns (out: Option<seq<B>>)
    ensures out == Through(step, items)
  {
    var done: seq<B> := [];
    for k := 0 to |items|
      invariant Through(step, items[..k]) == Some(done)
    {
      var mapped := step(items[k]);
      assert items[..k + 1][..k] == items[..k];
      if mapped.None? {
        ThroughFails(step, items, k);
        return None;
      }
      done := done + [mapped.value];
    }
    assert items[..|items|] == items;
    return Some(done);
  }

  lemma {:induction false} SliceRoundTrip<T(!new)>(c: Codec<T>, items: seq<T>)
    requires Faithful(c) && Through(c.enc, items).Some?
    ensures Through(c.dec, Through(c.enc, items).value) == Some(items)
  {
    var raw := Through(c.enc, items).value;
    if items != [] {
      var n := |items| - 1;
      SliceRoundTrip(c, items[..n]);
      assert raw[..n] == Through(c.enc, items[..n]).value;
      assert c.enc(items[n]) == Some(raw[n]);
      assert items == items[..n] + [items[n]];
    }
  }

  // ----- Snapshots -----

  function SnapshotToWire(f: Format, s: Snapshot): Option<Wire> {
    var vpcs := Through(f.vpc.enc, s.vpcs);
    var networkSegments := Through(f.networkSegment.enc, s.networkSegments);
    var instances := Through(f.instance.enc, s.instances);
    var machines := Through(f.machine.enc, s.machines);
    var vpcPrefixes := Through(f.vpcPrefix.enc, s.vpcPrefixes);
    var vpcPeerings := Through(f.vpcPeering.enc, s.vpcPeerings);
    var osImages := Through(f.osImage.enc, s.osImages);
    var operatingSystems := Through(f.operatingSystem.enc, s.operatingSystems);
    var instanceTypes := Through(f.instanceType.enc, s.instanceTypes);
    if vpcs.Some? && networkSegments.Some? && instances.Some? && machines.Some? && vpcPrefixes.Some? &&
       vpcPeerings.Some? && osImages.Some? && operatingSystems.Some? && instanceTypes.Some?
    then
      Some(Wire(s.version, vpcs.value, networkSegments.value, instances.value, machines.value, vpcPrefixes.value,
                vpcPeerings.value, osImages.value, operatingSystems.value, instanceTypes.value))
    else None
  }

  function WireToSnapshot(f: Format, w: Wire): Option<Snapshot> {
    var vpcs := Through(f.vpc.dec, w.vpcs);
    var networkSegments := Through(f.networkSegment.dec, w.networkSegments);
    var instances := Through(f.instance.dec, w.instances);
    var machines := Through(f.machine.dec, w.machines);
    var vpcPrefixes := Through(f.vpcPrefix.dec, w.vpcPrefixes);
    var vpcPeerings := Through(f.vpcPeering.dec, w.vpcPeerings);
    var osImages := Through(f.osImage.dec, w.osImages);
    var operatingSystems := Through(f.operatingSystem.dec, w.operatingSystems);
    var instanceTypes := Through(f.instanceType.dec, w.instanceTypes);
    if vpcs.Some? && networkSegments.Some? && instances.Some? && machines.Some? && vpcPrefixes.Some? &&
       vpcPeerings.Some? && osImages.Some? && operatingSystems.Some? && instanceTypes.Some?
    then
      Some(Snapshot(w.version, vpcs.value, networkSegments.value, instances.value, machines.value, vpcPrefixes.value,
                    vpcPeerings.value, osImages.value, operatingSystems.value, instanceTypes.value))
    else None
  }

  lemma WireRoundTrip(f: Format, s: Snapshot)
    requires FaithfulFormat(f) && SnapshotToWire(f, s).Some?
    ensures WireToSnapshot(f, SnapshotToWire(f, s).value) == Some(s)
  {
    SliceRoundTrip(f.vpc, s.vpcs);
    SliceRoundTrip(f.networkSegment, s.networkSegments);
    SliceRoundTrip(f.instance, s.instances);
    SliceRoundTrip(f.machine, s.machines);
    SliceRoundTrip(f.vpcPrefix, s.vpcPrefixes);
    SliceRoundTrip(f.vpcPeering, s.vpcPeerings);
    SliceRoundTrip(f.osImage, s.osImages);
    SliceRoundTrip(f.operatingSystem, s.operatingSystems);
    SliceRoundTrip(f.instanceType, s.instanceTypes);
  }

  function Versioned(s: Snapshot): Snapshot {
    if s.version == 0 then s.(version := STATE_VERSION) else s
  }

  const EMPTY := Snapshot(STATE_VERSION, [], [], [], [], [], [], [], [], [])

  /** The bytes Save writes, or none when a message cannot be encoded. */
  function Encode(f: Format, s: Snapshot): Option<string> {
    var wire := SnapshotToWire(f, Versioned(s));
    if wire.Some? then f.file.enc(wire.value) else None
  }

  function Decode(f: Format, data: string): Option<Snapshot> {
    var wire := f.file.dec(data);
    var s := if wire.Some? then WireToSnapshot(f, wire.value) else None;
    if s.Some? then Some(Versioned(s.value)) else None
  }

  lemma EncodeRoundTrip(f: Format, s: Snapshot)
    requires FaithfulFormat(f) && Encode(f, s).Some?
    ensures Decode(f, Encode(f, s).value) == Some(Versioned(s))
  {
    WireRoundTrip(f, Versioned(s));
  }

  // ----- The file system -----

  type Files = map<string, string>

  function TmpOf(path: string): (tmp: string)
    ensures tmp != path
  {
    path + ".tmp"
  }

  function Written(files: Files, name: string, data: string): Files {
    files[name := data]
  }

  function Renamed(files: Files, from: string, to: string): Files
    requires from in files
  {
    (files - {from})[to := files[from]]
  }

  lemma TmpOnly(files: Files, tmp: string, data: string)
    ensures Written(files, tmp, data) - {tmp} == files - {tmp}
  {
  }

  /** Writing the temporary file and renaming it replaces the target in one step. */
  lemma WrittenThenRenamed(files: Files, tmp: string, path: string, data: string)
    requires tmp != path
    ensures Renamed(Written(files, tmp, data), tmp, path) == (files - {tmp})[path := data]
  {
    TmpOnly(files, tmp, data);
  }

  /** What Load returns; a missing file is an empty snapshot, an undecodable one an error. */
  function Loaded(f: Format, files: Files, path: string): Option<Snapshot> {
    if path == "" || path !in files then Some(EMPTY) else Decode(f, files[path])
  }

  /** What can go wrong while saving: the directory, the write (leaving some prefix of the data), the rename,
      and the clean-up after it. */
  datatype Faults = Faults(mkdirFails: bool, shortWrite: Option<string>, renameFails: bool, removeFails: bool)

  predicate SaveSucceeds(f: Format, snap: Snapshot, faults: Faults) {
    Encode(f, snap).Some? && !faults.mkdirFails && faults.shortWrite.None? && !faults.renameFails
  }

  /** The files after saving under a path: the target replaced and the temporary file gone, or the temporary file as
      the failing step leaves it. */
  function SavedFiles(f: Format, files: Files, path: string, snap: Snapshot, faults: Faults): Files {
    if Encode(f, snap).None? || faults.mkdirFails then files
    else
      var tmp, data := TmpOf(path), Encode(f, snap).value;
      if faults.shortWrite.Some? then Written(files, tmp, faults.shortWrite.value)
      else if !faults.renameFails then (files - {tmp})[path := data]
      else if faults.removeFails then Written(files, tmp, data)
      else files - {tmp}
  }

  class FileSystem {
    var files: Files

    constructor ()
      ensures files == map[]
    {
      files := map[];
    }

    method Load(f: Format, path: string) returns (s: Option<Snapshot>)
      ensures s == Loaded(f, files, path)
    {
      if path == "" || path !in files {
        return Some(EMPTY);
      }
      var wire := f.file.dec(files[path]);
      if wire.None? {
        return None;
      }
      var snap := WireToSnapshot(f, wire.value);
      if snap.None? {
        return None;
      }
      s := snap;
      if s.value.version == 0 {
        s := Some(s.value.(version := STATE_VERSION));
      }
    }

    /** The first half of Save: the bytes to write. */
    static method EncodeSnapshot(f: Format, snap: Snapshot) returns (data: Option<string>)
      ensures data == Encode(f, snap)
    {
      var versioned := snap;
      if versioned.version == 0 {
        versioned := versioned.(version := STATE_VERSION);
      }
      var wire := SnapshotToWire(f, versioned);
      if wire.None? {
        return None;
      }
      data := f.file.enc(wire.value);
    }

    /** Save: on success the file holds exactly the encoded snapshot and the temporary file is gone; on failure
        nothing but the temporary file has changed. */
    method Save(f: Format, path: string, snap: Snapshot, faults: Faults) returns (ok: bool)
      modifies this
      ensures ok <==> path == "" || SaveSucceeds(f, snap, faults)
      ensures files == if path == "" then old(files) else SavedFiles(f, old(files), path, snap, faults)
      ensures ok && path != "" ==> files == (old(files) - {TmpOf(path)})[path := Encode(f, snap).value]
      ensures !ok ==> files - {TmpOf(path)} == old(files) - {TmpOf(path)}
    {
      if path == "" {
        return true;
      }
      var data := EncodeSnapshot(f, snap);
      if data.None? || faults.mkdirFails {
        return false;
      }
      var tmp := TmpOf(path);
      if faults.shortWrite.Some? {
        TmpOnly(files, tmp, faults.shortWrite.value);
        files := Written(files, tmp, faults.shortWrite.value);
        return false;
      }
      TmpOnly(files, tmp, data.value);
      WrittenThenRenamed(files, tmp, path, data.value);
      files := Written(files, tmp, data.value);
      if faults.renameFails {
        if !faults.removeFails {
          files := files - {tmp};
        }
        return false;
      }
      files := Renamed(files, tmp, path);
      return true;
    }
  }
}
