/** What the instance handlers answer and store, and an instance over a whole run: every field of it. */
module InstanceRuns {
  import opened Outcomes
  import opened HostAddress
  import opened Tables
  import opened TableRuns

  // ----- One request -----

  /** An allocation answers exactly when its id is free, it brings a network configuration and a machine, and every
      address can be drawn; a taken id is refused. The instance is stored as it was asked for, without metadata or
      version, and a machine the server does not know is entered as ready. */
  lemma AllocateMeans(t: Tables, req: AllocateRequest, uuid: string, draws: seq<Draw>)
    requires |draws| == InterfaceCount(req)
    ensures
      var (t', reply) := Allocate(t, req, uuid, draws);
      var id := if req.instanceId.Some? then req.instanceId.value else uuid;
      && (reply == Refused(Internal) <==> id in t.ins)
      && (reply.Answer? <==>
            && id !in t.ins && NetworkOf(req.config).Some? && req.machineId.Some?
            && !exists i | i in NetworkOf(req.config).value.interfaces :: DrawFails(t, i))
      && (!reply.Answer? ==> t' == t)
      && (reply.Answer? ==>
            var instance := reply.value;
            && t' == t.(ins := t'.ins, m := t'.m) && t'.ins == t.ins[id := instance]
            && t'.m == (if req.machineId.value in t.m then t.m
                        else t.m[req.machineId.value := Machine(req.machineId, None, "Ready")])
            && instance.id == Some(id) && instance.machineId == req.machineId && instance.config == req.config
            && instance.metadata == None && instance.configVersion == ""
            && instance.status.Some? && instance.status.value.state == PROVISIONING)
  {
    if NetworkOf(req.config).Some? {
      StatusesFail(t, NetworkOf(req.config).value.interfaces, draws);
    }
  }

  /** A release answers exactly for an id that is there; that instance is gone and nothing else has changed. */
  lemma ReleaseMeans(t: Tables, id: Option<string>)
    ensures
      var (t', reply) := Release(t, id);
      && (reply.Answer? <==> id.Some? && id.value in t.ins)
      && (reply == Refused(InvalidArgument) <==> id.None?) && (reply == Refused(NotFound) <==> id.Some? && id.value !in t.ins)
      && t' == t.(ins := t'.ins)
      && forall k :: (k in t'.ins <==> k in t.ins && Some(k) != id) && (k in t'.ins ==> t'.ins[k] == t.ins[k])
  {
  }

  /** Releasing a new instance undoes its allocation, but for the machine. */
  lemma AllocateThenRelease(t: Tables, req: AllocateRequest, uuid: string, draws: seq<Draw>)
    requires |draws| == InterfaceCount(req) && Allocate(t, req, uuid, draws).1.Answer?
    ensures
      var (t', reply) := Allocate(t, req, uuid, draws);
      Release(t', reply.value.id) == (t'.(ins := t.ins), Answer(()))
  {
    AllocateMeans(t, req, uuid, draws);
    var id := Allocate(t, req, uuid, draws).1.value.id.value;
    assert t.ins[id := Allocate(t, req, uuid, draws).1.value] - {id} == t.ins;
  }

  /** An update answers exactly for a non-empty id that is there. The configuration it brings is stored with the old
      network, metadata it brings is stored, the version is the new one, and all else is as it was. */
  lemma UpdateMeans(t: Tables, id: Option<string>, config: Option<InstanceConfig>, metadata: Option<string>, uuid: string)
    ensures
      var (t', reply) := UpdateInstance(t, id, config, metadata, uuid);
      && (reply.Answer? <==> id.Some? && id.value != "" && id.value in t.ins)
      && (reply == Refused(InvalidArgument) <==> id.None? || id.value == "")
      && (!reply.Answer? ==> t' == t)
      && (reply.Answer? ==>
            var before, after := t.ins[id.value], reply.value;
            && t' == t.(ins := t.ins[id.value := after])
            && (config.Some? ==>
                  && after.config.Some? && after.config.value.securityGroup == config.value.securityGroup
                  && after.config.value.detail == config.value.detail
                  && after.config.value.network == NetworkOf(before.config))
            && (config.None? ==> after.config == before.config)
            && after.metadata == (if metadata.Some? then metadata else before.metadata)
            && after.configVersion == uuid
            && after.id == before.id && after.machineId == before.machineId && after.status == before.status)
  {
  }

  // ----- Over a run -----

  predicate Updates(rpc: Rpc, id: string) {
    rpc.UpdateInstanceConfig? && rpc.instanceId == Some(id) && id != ""
  }

  /** What the last update of the instance brings, of those that bring something. */
  function LastGiven<T>(rpcs: seq<Rpc>, id: string, pick: Rpc -> Option<T>): Option<T> {
    if rpcs == [] then None
    else
      var later := LastGiven(rpcs[1..], id, pick);
      if later.Some? then later else if Updates(rpcs[0], id) then pick(rpcs[0]) else None
  }

  function ConfigGiven(rpc: Rpc): Option<InstanceConfig> {
    if rpc.UpdateInstanceConfig? then rpc.config else None
  }

  function MetadataGiven(rpc: Rpc): Option<string> {
    if rpc.UpdateInstanceConfig? then rpc.metadata else None
  }

  function VersionGiven(rpc: Rpc): Option<string> {
    if rpc.UpdateInstanceConfig? then Some(rpc.uuid) else None
  }

  /** An instance after a run: its configuration, but for the network, is the last one given, its metadata the last
      given and its version that of the last update; its state is the one after `n` reads. */
  function Grew(first: Instance, rpcs: seq<Rpc>, id: string, n: nat): Instance
    requires first.status.Some?
  {
    var config := LastGiven(rpcs, id, ConfigGiven);
    var metadata := LastGiven(rpcs, id, MetadataGiven);
    first.(config := if config.Some? then Some(config.value.(network := NetworkOf(first.config))) else first.config,
           metadata := if metadata.Some? then metadata else first.metadata,
           configVersion := Or(LastGiven(rpcs, id, VersionGiven), first.configVersion),
           status := Some(first.status.value.(state := StateAfter(n))))
  }

  lemma {:induction false} ReadAllInstance(ins: map<string, Instance>, ids: seq<string>, id: string, n: nat)
    requires id in ins && ins[id].status.Some? && ins[id].status.value.state == StateAfter(n)
    ensures id in ReadAll(ins, ids)
    ensures
      ReadAll(ins, ids)[id] ==
      ins[id].(status := Some(ins[id].status.value.(state := StateAfter(n + Occurrences(ids, id)))))
  {
    if ids != [] {
      ReadAllInstance(ins, ids[..|ids| - 1], id, n);
    }
  }

  lemma OneGiven<T>(rpc: Rpc, id: string, pick: Rpc -> Option<T>)
    ensures LastGiven([rpc], id, pick) == if Updates(rpc, id) then pick(rpc) else None
  {
    assert [rpc][1..] == [];
  }

  lemma OthersLeave(t: Tables, rpc: Rpc, id: string)
    requires WellFormed(rpc) && id in t.ins && rpc != ReleaseInstance(Some(id)) && !rpc.FindInstancesByIds? && !Updates(rpc, id)
    ensures id in Apply(t, rpc).0.ins && Apply(t, rpc).0.ins[id] == t.ins[id]
  {
  }

  /** One request other than the instance's own release. */
  lemma StepOfInstance(t: Tables, rpc: Rpc, id: string, n: nat)
    requires WellFormed(rpc) && id in t.ins && rpc != ReleaseInstance(Some(id))
    requires t.ins[id].status.Some? && t.ins[id].status.value.state == StateAfter(n)
    ensures
      var t' := Apply(t, rpc).0;
      id in t'.ins && t'.ins[id] == Grew(t.ins[id], [rpc], id, n + ReadsIn(rpc, id))
  {
    OneGiven(rpc, id, ConfigGiven);
    OneGiven(rpc, id, MetadataGiven);
    OneGiven(rpc, id, VersionGiven);
    if rpc.FindInstancesByIds? {
      ReadAllInstance(t.ins, rpc.ids, id, n);
    } else if Updates(rpc, id) {
      UpdateMeans(t, rpc.instanceId, rpc.config, rpc.metadata, rpc.uuid);
    } else {
      OthersLeave(t, rpc, id);
    }
  }

  lemma GrewOn(first: Instance, rpc: Rpc, rest: seq<Rpc>, id: string, m: nat, n: nat)
    requires first.status.Some?
    ensures Grew(Grew(first, [rpc], id, m), rest, id, n) == Grew(first, [rpc] + rest, id, n)
  {
    OneGiven(rpc, id, ConfigGiven);
    OneGiven(rpc, id, MetadataGiven);
    OneGiven(rpc, id, VersionGiven);
    assert ([rpc] + rest)[1..] == rest;
  }

  /** Over every run without its release an instance is known field by field: configuration, metadata and version by
      its last updates, the state by its reads, and the rest as it was. */
  lemma {:induction false} InstanceOverRuns(t: Tables, rpcs: seq<Rpc>, id: string, n: nat)
    requires Survives(t, rpcs) && id in t.ins && ReleaseInstance(Some(id)) !in rpcs
    requires t.ins[id].status.Some? && t.ins[id].status.value.state == StateAfter(n)
    ensures id in After(t, rpcs).ins
    ensures After(t, rpcs).ins[id] == Grew(t.ins[id], rpcs, id, n + Reads(rpcs, id))
    decreases |rpcs|
  {
    if rpcs == [] {
      assert Grew(t.ins[id], [], id, n) == t.ins[id];
    } else {
      var t', m := Apply(t, rpcs[0]).0, n + ReadsIn(rpcs[0], id);
      StepOfInstance(t, rpcs[0], id, n);
      InstanceOverRuns(t', rpcs[1..], id, m);
      GrewOn(t.ins[id], rpcs[0], rpcs[1..], id, m, m + Reads(rpcs[1..], id));
      assert rpcs == [rpcs[0]] + rpcs[1..];
      assert m + Reads(rpcs[1..], id) == n + Reads(rpcs, id);
    }
  }

  /** After an accepted allocation and any run without a release, the configuration is the allocated one, or the last
      one given with the allocated network. */
  lemma AllocatedConfig(t: Tables, req: AllocateRequest, uuid: string, draws: seq<Draw>, rpcs: seq<Rpc>)
    requires |draws| == InterfaceCount(req) && Allocate(t, req, uuid, draws).1.Answer?
    requires Survives(Allocate(t, req, uuid, draws).0, rpcs)
    requires ReleaseInstance(Allocate(t, req, uuid, draws).1.value.id) !in rpcs
    ensures
      var id := if req.instanceId.Some? then req.instanceId.value else uuid;
      var now, given := After(Allocate(t, req, uuid, draws).0, rpcs).ins, LastGiven(rpcs, id, ConfigGiven);
      && id in now
      && now[id].config == (if given.Some? then Some(given.value.(network := NetworkOf(req.config))) else req.config)
  {
    AllocateMeans(t, req, uuid, draws);
    var id := if req.instanceId.Some? then req.instanceId.value else uuid;
    InstanceOverRuns(Allocate(t, req, uuid, draws).0, rpcs, id, 0);
  }

  /** The answer to a read lists the instances asked for, in the order they were asked for, each time. */
  lemma {:induction false} FoundInOrder(ins: map<string, Instance>, a: seq<string>, b: seq<string>)
    ensures Found(ins, a + b) == Found(ins, a) + Found(ins, b)
    ensures forall id :: Found(ins, [id]) == if id in ins then [ins[id]] else []
  {
    forall id ensures Found(ins, [id]) == if id in ins then [ins[id]] else [] {
      assert [id][..0] == [];
      assert Found(ins, []) == [];
    }
    if b == [] {
      assert a + b == a;
    } else {
      var n := |b| - 1;
      assert (a + b)[..|a + b| - 1] == a + b[..n] && (a + b)[|a + b| - 1] == b[n];
      FoundInOrder(ins, a, b[..n]);
    }
  }
}
