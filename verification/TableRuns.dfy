/** What every sequence of requests keeps in the persisted maps, and the life cycle of an instance. */
module TableRuns {
  import opened Outcomes
  import opened HostAddress
  import opened Tables

  // ----- The invariant: every object under its own id, and what ties the maps together.
  // Only instances and machines can sit under the empty id. -----

  ghost predicate Vpcs(v: map<string, Vpc>) {
    forall k | k in v :: v[k].id == Some(k) && k != ""
  }

  ghost predicate Segments(ns: map<string, NetworkSegment>) {
    forall k | k in ns :: ns[k].id == Some(k) && k != ""
  }

  ghost predicate Machines(m: map<string, Machine>) {
    forall k | k in m :: m[k].id == Some(k)
  }

  ghost predicate Prefixes(vp: map<string, VpcPrefix>) {
    forall k | k in vp :: vp[k].id == Some(k) && k != ""
  }

  ghost predicate Types(it: map<string, InstanceType>) {
    forall k | k in it :: it[k].id == k && k != ""
  }

  /** An instance has a network and one status entry for each configured interface. */
  ghost predicate Aligned(i: Instance) {
    && i.config.Some? && i.config.value.network.Some? && i.status.Some?
    && |i.config.value.network.value.interfaces| == |i.status.value.interfaces|
  }

  ghost predicate Instances(ins: map<string, Instance>) {
    forall k | k in ins :: ins[k].id == Some(k) && Aligned(ins[k])
  }

  ghost predicate SamePair(p: VpcPeering, q: VpcPeering) {
    {p.vpcId, p.peerVpcId} == {q.vpcId, q.peerVpcId}
  }

  /** No two peerings join the same unordered pair of VPCs. */
  ghost predicate Peerings(vpp: map<string, VpcPeering>) {
    && (forall k | k in vpp :: vpp[k].id == Some(k) && k != "")
    && (forall a, b | a in vpp && b in vpp && a != b :: !SamePair(vpp[a], vpp[b]))
  }

  /** Every image has an operating system entry with its id. */
  ghost predicate Images(osi: map<string, OsImage>, oss: map<string, OperatingSystem>) {
    && (forall k | k in osi :: osi[k].attributes.Some? && osi[k].attributes.value.id == Some(k) && k != "")
    && (forall k | k in oss :: oss[k].id == Some(k) && k != "")
    && osi.Keys <= oss.Keys
  }

  ghost predicate Sound(t: Tables) {
    && Vpcs(t.v) && Segments(t.ns) && Instances(t.ins) && Machines(t.m) && Prefixes(t.vp)
    && Peerings(t.vpp) && Images(t.osi, t.oss) && Types(t.it)
  }

  /** Every request keeps all of it. */
  lemma StepSound(t: Tables, rpc: Rpc)
    requires Sound(t) && WellFormed(rpc)
    ensures Sound(Apply(t, rpc).0)
  {
    var t' := Apply(t, rpc).0;
    InstancesStep(t, rpc);
    PeeringsStep(t, rpc);
    ImagesStep(t, rpc);
    VpcsStep(t, rpc);
    SegmentsStep(t, rpc);
    PrefixesStep(t, rpc);
    MachinesStep(t, rpc);
  }

  lemma InstancesStep(t: Tables, rpc: Rpc)
    requires Instances(t.ins) && WellFormed(rpc)
    ensures Instances(Apply(t, rpc).0.ins)
  {
    if rpc.FindInstancesByIds? {
      ReadAllSound(t.ins, rpc.ids);
    }
  }

  lemma {:induction false} ReadAllSound(ins: map<string, Instance>, ids: seq<string>)
    requires Instances(ins)
    ensures Instances(ReadAll(ins, ids))
  {
    if ids != [] {
      ReadAllSound(ins, ids[..|ids| - 1]);
    }
  }

  lemma MatchingPair(p: VpcPeering, q: VpcPeering)
    ensures MatchesPair(p, q.vpcId, q.peerVpcId) <==> SamePair(p, q)
  {
    if SamePair(p, q) {
      assert p.vpcId in {q.vpcId, q.peerVpcId} && p.peerVpcId in {q.vpcId, q.peerVpcId};
      assert q.vpcId in {p.vpcId, p.peerVpcId} && q.peerVpcId in {p.vpcId, p.peerVpcId};
    }
  }

  lemma PeeringsStep(t: Tables, rpc: Rpc)
    requires Peerings(t.vpp) && WellFormed(rpc)
    ensures Peerings(Apply(t, rpc).0.vpp)
  {
    if rpc.CreateVpcPeering? {
      CreatePeeringSound(t, rpc.requested, rpc.vpc, rpc.peer, rpc.uuid);
    }
  }

  lemma CreatePeeringSound(t: Tables, id: Option<string>, vpc: string, peer: string, uuid: string)
    requires Peerings(t.vpp) && uuid != ""
    ensures Peerings(CreatePeering(t, id, vpc, peer, uuid).0.vpp)
  {
    var (t', reply) := CreatePeering(t, id, vpc, peer, uuid);
    if reply.Answer? {
      forall k | k in t.vpp ensures !SamePair(t.vpp[k], reply.value) && !SamePair(reply.value, t.vpp[k]) {
        MatchingPair(t.vpp[k], reply.value);
      }
    }
  }

  lemma ImagesStep(t: Tables, rpc: Rpc)
    requires Images(t.osi, t.oss) && WellFormed(rpc)
    ensures Images(Apply(t, rpc).0.osi, Apply(t, rpc).0.oss)
  {
    if rpc.CreateOsImage? {
      CreateImageSound(t, rpc.image, rpc.uuid, rpc.now);
    } else if rpc.UpdateOsImage? {
      UpdateImageSound(t, rpc.image, rpc.now);
    } else if rpc.DeleteOsImage? {
      DeleteImageSound(t, rpc.id);
    } else if rpc.CreateOperatingSystem? {
      CreateOsSound(t, rpc.os, rpc.uuid, rpc.now);
    } else if rpc.UpdateOperatingSystem? {
      UpdateOsSound(t, rpc.id, rpc.osUpdate, rpc.now);
    } else {
      ImagesUntouched(t, rpc);
    }
  }

  predicate OnImages(rpc: Rpc) {
    || rpc.CreateOsImage? || rpc.UpdateOsImage? || rpc.DeleteOsImage?
    || rpc.CreateOperatingSystem? || rpc.UpdateOperatingSystem?
  }

  lemma ImagesUntouched(t: Tables, rpc: Rpc)
    requires WellFormed(rpc) && !OnImages(rpc)
    ensures Apply(t, rpc).0.osi == t.osi && Apply(t, rpc).0.oss == t.oss
  {
  }

  lemma ImagesPut(osi: map<string, OsImage>, oss: map<string, OperatingSystem>, id: string, image: OsImage,
                  os: OperatingSystem)
    requires Images(osi, oss) && os.id == Some(id) && id != ""
    requires image.attributes.Some? && image.attributes.value.id == Some(id)
    ensures Images(osi[id := image], oss[id := os])
  {
  }

  lemma CreateImageSound(t: Tables, req: OsImageAttributes, uuid: string, now: string)
    requires Images(t.osi, t.oss) && uuid != ""
    ensures Images(CreateImage(t, req, uuid, now).0.osi, CreateImage(t, req, uuid, now).0.oss)
  {
    var nid := ImageId(req, uuid);
    var os := Stub(if nid in t.oss then t.oss[nid] else NewStub(nid), req, now);
    StubId(if nid in t.oss then t.oss[nid] else NewStub(nid), req, now);
    ImagesPut(t.osi, t.oss, nid, OsImage(Some(req.(id := Some(nid)))), os);
  }

  lemma StubId(os: OperatingSystem, req: OsImageAttributes, now: string)
    ensures Stub(os, req, now).id == os.id
  {
  }

  lemma UpdateImageSound(t: Tables, req: OsImageAttributes, now: string)
    requires Images(t.osi, t.oss)
    ensures Images(UpdateImage(t, req, now).0.osi, UpdateImage(t, req, now).0.oss)
  {
    if req.id.Some? && req.id.value != "" {
      var id := req.id.value;
      ImagesPut(t.osi, t.oss, id, OsImage(Some(req)), Stub(if id in t.oss then t.oss[id] else NewStub(id), req, now));
    }
  }

  lemma DeleteImageSound(t: Tables, id: string)
    requires Images(t.osi, t.oss)
    ensures Images(DeleteImage(t, id).0.osi, DeleteImage(t, id).0.oss)
  {
  }

  lemma CreateOsSound(t: Tables, req: OperatingSystem, uuid: string, now: string)
    requires Images(t.osi, t.oss) && uuid != ""
    ensures Images(CreateOs(t, req, uuid, now).0.osi, CreateOs(t, req, uuid, now).0.oss)
  {
  }

  lemma UpdateOsSound(t: Tables, id: string, req: OsUpdate, now: string)
    requires Images(t.osi, t.oss)
    ensures Images(UpdateOs(t, id, req, now).0.osi, UpdateOs(t, id, req, now).0.oss)
  {
  }

  lemma VpcsStep(t: Tables, rpc: Rpc)
    requires Vpcs(t.v) && WellFormed(rpc)
    ensures Vpcs(Apply(t, rpc).0.v)
  {
  }

  lemma SegmentsStep(t: Tables, rpc: Rpc)
    requires Segments(t.ns) && WellFormed(rpc)
    ensures Segments(Apply(t, rpc).0.ns)
  {
  }

  lemma PrefixesStep(t: Tables, rpc: Rpc)
    requires Prefixes(t.vp) && WellFormed(rpc)
    ensures Prefixes(Apply(t, rpc).0.vp)
  {
  }

  lemma MachinesStep(t: Tables, rpc: Rpc)
    requires Machines(t.m) && Types(t.it) && WellFormed(rpc)
    ensures Machines(Apply(t, rpc).0.m) && Types(Apply(t, rpc).0.it)
  {
  }

  // ----- What a refused request changes, and when the process dies -----

  lemma RefusalsChangeNothing(t: Tables, rpc: Rpc)
    requires WellFormed(rpc)
    ensures !Apply(t, rpc).1.Succeeded? ==> Apply(t, rpc).0 == t
  {
  }

  /** The draws that run into a prefix length the host arithmetic cannot handle. */
  predicate DrawFails(t: Tables, i: InterfaceConfig) {
    && i.ipAddress == "" && i.vpcPrefixId != "" && i.vpcPrefixId in t.vp
    && t.vp[i.vpcPrefixId].prefix.Some? && t.vp[i.vpcPrefixId].prefix.value.Ipv4?
    && (t.vp[i.vpcPrefixId].prefix.value.ones == 31 || t.vp[i.vpcPrefixId].prefix.value.ones > 32)
  }

  /** A request kills the process exactly when it allocates a free id without a network configuration or
      a machine, or asks for an address from such a prefix. */
  lemma DiesExactly(t: Tables, rpc: Rpc)
    requires WellFormed(rpc)
    ensures
      Apply(t, rpc).1.Died? <==>
        && rpc.AllocateInstance?
        && (if rpc.alloc.instanceId.Some? then rpc.alloc.instanceId.value else rpc.uuid) !in t.ins
        && (|| NetworkOf(rpc.alloc.config).None?
            || rpc.alloc.machineId.None?
            || exists i | i in NetworkOf(rpc.alloc.config).value.interfaces :: DrawFails(t, i))
  {
    if rpc.AllocateInstance? && NetworkOf(rpc.alloc.config).Some? {
      StatusesFail(t, NetworkOf(rpc.alloc.config).value.interfaces, rpc.draws);
    }
  }

  lemma {:induction false} StatusesFail(t: Tables, interfaces: seq<InterfaceConfig>, draws: seq<Draw>)
    requires |interfaces| == |draws|
    ensures StatusesFor(t.vp, interfaces, draws).None? <==> exists i | i in interfaces :: DrawFails(t, i)
  {
    if interfaces != [] {
      var n := |interfaces| - 1;
      StatusesFail(t, interfaces[..n], draws[..n]);
      assert interfaces == interfaces[..n] + [interfaces[n]];
      AddressFails(t, interfaces[n], draws[n]);
    }
  }

  lemma AddressFails(t: Tables, i: InterfaceConfig, draw: Draw)
    ensures AddressFor(t.vp, i, draw).None? <==> DrawFails(t, i)
  {
  }

  /** What an interface asked for: the address it names, else one strictly between the network and the broadcast
      address of its VPC prefix, or the only one of a /32, else any. */
  ghost predicate Wanted(vp: map<string, VpcPrefix>, i: InterfaceConfig, address: Address) {
    if i.ipAddress != "" then address == Given(i.ipAddress)
    else
      && address.Drawn? && |address.octets| == 4
      && (i.vpcPrefixId != "" && i.vpcPrefixId in vp && vp[i.vpcPrefixId].prefix.Some? ==>
            Belongs(vp[i.vpcPrefixId].prefix.value, FromOctets(address.octets)))
  }

  predicate Belongs(cidr: Prefix, a: Word) {
    cidr.Ipv4? && cidr.ones <= 32 ==>
      if cidr.ones == 32 then a == cidr.address else cidr.address < a < cidr.address + Size(cidr) - 1
  }

  lemma AddressWanted(vp: map<string, VpcPrefix>, i: InterfaceConfig, draw: Draw)
    requires AddressFor(vp, i, draw).Some?
    ensures Wanted(vp, i, AddressFor(vp, i, draw).value)
  {
    OctetsRoundTrip(draw.anyWord);
    if i.vpcPrefixId in vp && vp[i.vpcPrefixId].prefix.Some? {
      var cidr := vp[i.vpcPrefixId].prefix.value;
      if Generated(cidr, draw.hostWord).Answer? {
        GeneratedBelongs(cidr, draw.hostWord);
      }
    }
  }

  lemma GeneratedBelongs(cidr: Prefix, random: Word)
    requires Generated(cidr, random).Answer?
    ensures |Generated(cidr, random).value| == 4 && Belongs(cidr, FromOctets(Generated(cidr, random).value))
  {
    if cidr.ones == 32 {
      OctetsRoundTrip(cidr.address);
    } else {
      InsidePrefix(cidr, random);
      OctetsRoundTrip(cidr.address + 1 + random % MaxHost(cidr.ones));
    }
  }

  lemma {:induction false} StatusesWanted(vp: map<string, VpcPrefix>, interfaces: seq<InterfaceConfig>, draws: seq<Draw>, k: nat)
    requires |interfaces| == |draws| && k < |interfaces| && StatusesFor(vp, interfaces, draws).Some?
    ensures
      var given := StatusesFor(vp, interfaces, draws).value[k];
      && Wanted(vp, interfaces[k], given.address) && given.mac == draws[k].mac
      && given.virtualFunctionId == if interfaces[k].virtualFunction then Some(draws[k].virtualFunctionId) else None
  {
    var n := |interfaces| - 1;
    if k < n {
      StatusesWanted(vp, interfaces[..n], draws[..n], k);
    } else {
      AddressWanted(vp, interfaces[n], draws[n]);
    }
  }

  /** After an accepted allocation every interface, in order, has the address it asked for, a hardware address drawn for
      it, and a function id drawn for it exactly when it is a virtual function. */
  lemma AllocatedAddresses(t: Tables, req: AllocateRequest, uuid: string, draws: seq<Draw>)
    requires |draws| == InterfaceCount(req) && Allocate(t, req, uuid, draws).1.Answer?
    ensures
      var asked := req.config.value.network.value.interfaces;
      var given := Allocate(t, req, uuid, draws).1.value.status.value.interfaces;
      && |given| == |asked|
      && forall k | 0 <= k < |asked| ::
           && Wanted(t.vp, asked[k], given[k].address) && given[k].mac == draws[k].mac
           && given[k].virtualFunctionId == if asked[k].virtualFunction then Some(draws[k].virtualFunctionId) else None
  {
    var asked := req.config.value.network.value.interfaces;
    var given := StatusesFor(t.vp, asked, draws).value;
    forall k | 0 <= k < |asked|
      ensures Wanted(t.vp, asked[k], given[k].address) && given[k].mac == draws[k].mac
      ensures given[k].virtualFunctionId == if asked[k].virtualFunction then Some(draws[k].virtualFunctionId) else None
    {
      StatusesWanted(t.vp, asked, draws, k);
    }
  }

  // ----- Runs -----

  /** The tables after serving the requests in order; a run ends where the process would die. */
  ghost predicate Survives(t: Tables, rpcs: seq<Rpc>)
    decreases |rpcs|
  {
    rpcs == [] ||
    (WellFormed(rpcs[0]) && !Apply(t, rpcs[0]).1.Died? && Survives(Apply(t, rpcs[0]).0, rpcs[1..]))
  }

  ghost function After(t: Tables, rpcs: seq<Rpc>): Tables
    requires Survives(t, rpcs)
    decreases |rpcs|
  {
    if rpcs == [] then t else After(Apply(t, rpcs[0]).0, rpcs[1..])
  }

  lemma {:induction false} RunSound(t: Tables, rpcs: seq<Rpc>)
    requires Sound(t) && Survives(t, rpcs)
    ensures Sound(After(t, rpcs))
    decreases |rpcs|
  {
    if rpcs != [] {
      StepSound(t, rpcs[0]);
      RunSound(Apply(t, rpcs[0]).0, rpcs[1..]);
    }
  }

  // ----- The life cycle of an instance -----

  function Occurrences(ids: seq<string>, id: string): nat {
    if ids == [] then 0
    else Occurrences(ids[..|ids| - 1], id) + if ids[|ids| - 1] == id then 1 else 0
  }

  /** How often a run reads an instance, repeats in one request counted. */
  ghost function Reads(rpcs: seq<Rpc>, id: string): nat {
    if rpcs == [] then 0 else ReadsIn(rpcs[0], id) + Reads(rpcs[1..], id)
  }

  function ReadsIn(rpc: Rpc, id: string): nat {
    if rpc.FindInstancesByIds? then Occurrences(rpc.ids, id) else 0
  }

  function StateAfter(n: nat): TenantState {
    if n == 0 then PROVISIONING else if n == 1 then CONFIGURING else READY
  }

  /** `b` is instance `a` with its life cycle where `m` reads bring it; machine, network and interface
      status are as they were. */
  ghost predicate Grown(a: Instance, b: Instance, m: nat) {
    && b.id == a.id && b.machineId == a.machineId
    && NetworkOf(b.config) == NetworkOf(a.config)
    && b.status.Some? && a.status.Some?
    && b.status.value == a.status.value.(state := StateAfter(m))
  }

  lemma {:induction false} ReadAllAdvances(ins: map<string, Instance>, ids: seq<string>, id: string, n: nat)
    requires id in ins && ins[id].status.Some? && ins[id].status.value.state == StateAfter(n)
    ensures id in ReadAll(ins, ids)
    ensures Grown(ins[id], ReadAll(ins, ids)[id], n + Occurrences(ids, id))
  {
    if ids != [] {
      ReadAllAdvances(ins, ids[..|ids| - 1], id, n);
    }
  }

  lemma GrownByUpdate(i: Instance, config: Option<InstanceConfig>, metadata: Option<string>, uuid: string, n: nat)
    requires i.status.Some? && i.status.value.state == StateAfter(n)
    ensures Grown(i, Reconfigured(i, config, metadata, uuid), n) && Grown(i, i, n)
  {
    assert i.status.value == i.status.value.(state := StateAfter(n));
  }

  /** Requests other than reads leave an instance alone, reconfigure it, or release it. */
  lemma OtherRequests(t: Tables, rpc: Rpc, id: string)
    requires WellFormed(rpc) && id in t.ins && !rpc.FindInstancesByIds? && rpc != ReleaseInstance(Some(id))
    ensures id in Apply(t, rpc).0.ins
    ensures
      || Apply(t, rpc).0.ins[id] == t.ins[id]
      || (rpc.UpdateInstanceConfig?
          && Apply(t, rpc).0.ins[id] == Reconfigured(t.ins[id], rpc.config, rpc.metadata, rpc.uuid))
  {
  }

  /** One request other than the instance's own release. */
  lemma StepGrows(t: Tables, rpc: Rpc, id: string, n: nat)
    requires WellFormed(rpc) && id in t.ins && t.ins[id].status.Some?
    requires t.ins[id].status.value.state == StateAfter(n)
    requires rpc != ReleaseInstance(Some(id))
    ensures
      var t' := Apply(t, rpc).0;
      id in t'.ins && Grown(t.ins[id], t'.ins[id], n + ReadsIn(rpc, id))
  {
    if rpc.FindInstancesByIds? {
      ReadAllAdvances(t.ins, rpc.ids, id, n);
    } else {
      OtherRequests(t, rpc, id);
      var c := if rpc.UpdateInstanceConfig? then (rpc.config, rpc.metadata, rpc.uuid) else (None, None, "");
      GrownByUpdate(t.ins[id], c.0, c.1, c.2, n);
    }
  }

  lemma {:induction false} LifeCycle(t: Tables, rpcs: seq<Rpc>, id: string, n: nat)
    requires Survives(t, rpcs) && id in t.ins && t.ins[id].status.Some?
    requires t.ins[id].status.value.state == StateAfter(n)
    requires ReleaseInstance(Some(id)) !in rpcs
    ensures id in After(t, rpcs).ins
    ensures Grown(t.ins[id], After(t, rpcs).ins[id], n + Reads(rpcs, id))
    decreases |rpcs|
  {
    if rpcs != [] {
      var t' := Apply(t, rpcs[0]).0;
      StepGrows(t, rpcs[0], id, n);
      var m := n + ReadsIn(rpcs[0], id);
      LifeCycle(t', rpcs[1..], id, m);
      GrownTransitive(t.ins[id], t'.ins[id], m, After(t', rpcs[1..]).ins[id], m + Reads(rpcs[1..], id));
      assert m + Reads(rpcs[1..], id) == n + Reads(rpcs, id);
    }
  }

  lemma GrownTransitive(a: Instance, b: Instance, m: nat, c: Instance, k: nat)
    requires Grown(a, b, m) && Grown(b, c, k)
    ensures Grown(a, c, k)
  {
  }

  /** After any run that follows an accepted allocation without a release, the state is given by the number of
      reads since, and the network with its interface status is still the one allocated. */
  lemma AllocatedLifeCycle(t: Tables, req: AllocateRequest, uuid: string, draws: seq<Draw>, rpcs: seq<Rpc>)
    requires |draws| == InterfaceCount(req) && Allocate(t, req, uuid, draws).1.Answer?
    requires Survives(Allocate(t, req, uuid, draws).0, rpcs)
    requires ReleaseInstance(Allocate(t, req, uuid, draws).1.value.id) !in rpcs
    ensures
      var instance := Allocate(t, req, uuid, draws).1.value;
      var now := After(Allocate(t, req, uuid, draws).0, rpcs).ins;
      && instance.id.Some? && instance.id.value in now
      && now[instance.id.value].status == Some(instance.status.value.(state := StateAfter(Reads(rpcs, instance.id.value))))
      && now[instance.id.value].machineId == req.machineId
      && NetworkOf(now[instance.id.value].config) == NetworkOf(req.config)
      && |instance.status.value.interfaces| == |NetworkOf(req.config).value.interfaces|
  {
    var (t', reply) := Allocate(t, req, uuid, draws);
    LifeCycle(t', rpcs, reply.value.id.value, 0);
  }
}
