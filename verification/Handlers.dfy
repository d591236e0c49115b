/** The handlers over the persisted maps as they run: loops over the request, and map entries inserted,
    deleted and overwritten on the server object. */
module Handlers {
  import opened Outcomes
  import opened Text
  import opened HostAddress
  import opened Tables

  class Server {
    var v: map<string, Vpc>
    var ns: map<string, NetworkSegment>
    var ins: map<string, Instance>
    var m: map<string, Machine>
    var vp: map<string, VpcPrefix>
    var vpp: map<string, VpcPeering>
    var osi: map<string, OsImage>
    var oss: map<string, OperatingSystem>
    var it: map<string, InstanceType>

    function View(): Tables
      reads this
    {
      Tables(v, ns, ins, m, vp, vpp, osi, oss, it)
    }

    constructor (machines: map<string, Machine>)
      ensures View() == Tables(map[], map[], map[], machines, map[], map[], map[], map[], map[])
    {
      v, ns, ins, m, vp, vpp, osi, oss, it := map[], map[], map[], machines, map[], map[], map[], map[], map[];
    }

    // ----- Instances -----

    /** The address of one interface: the requested one, else one from its prefix, else any. */
    method PickAddress(i: InterfaceConfig, draw: Draw) returns (address: Option<Address>)
      ensures address == AddressFor(vp, i, draw)
    {
      if i.ipAddress != "" {
        return Some(Given(i.ipAddress));
      }
      if i.vpcPrefixId != "" && i.vpcPrefixId in vp && vp[i.vpcPrefixId].prefix.Some? {
        var drawn := GenerateIPAddressInCIDR(vp[i.vpcPrefixId].prefix.value, draw.hostWord);
        if drawn.Answer? {
          return Some(Drawn(drawn.value));
        }
        if drawn.Panicked? {
          return None;
        }
      }
      return Some(Drawn(Octets(draw.anyWord)));
    }

    /** The status entries of all interfaces, or none when drawing an address panics. */
    method DrawInterfaces(interfaces: seq<InterfaceConfig>, draws: seq<Draw>)
      returns (statuses: Option<seq<InterfaceStatus>>)
      requires |draws| == |interfaces|
      ensures statuses == StatusesFor(vp, interfaces, draws)
    {
      var drawn := [];
      for k := 0 to |interfaces|
        invariant StatusesFor(vp, interfaces[..k], draws[..k]) == Some(drawn)
      {
        var address := PickAddress(interfaces[k], draws[k]);
        assert interfaces[..k + 1][..k] == interfaces[..k] && draws[..k + 1][..k] == draws[..k];
        if address.None? {
          StatusesStayNone(vp, interfaces, draws, k + 1);
          return None;
        }
        var vf := if interfaces[k].virtualFunction then Some(draws[k].virtualFunctionId) else None;
        drawn := drawn + [InterfaceStatus(draws[k].mac, address.value, vf)];
      }
      assert interfaces[..|interfaces|] == interfaces && draws[..|interfaces|] == draws;
      return Some(drawn);
    }

    /** A panic ends the process, so what it leaves in memory does not matter. */
    method AllocateInstance(req: AllocateRequest, uuid: string, draws: seq<Draw>) returns (reply: Reply<Instance>)
      requires |draws| == InterfaceCount(req)
      modifies this
      ensures reply == Allocate(old(View()), req, uuid, draws).1
      ensures !reply.Panicked? ==> View() == Allocate(old(View()), req, uuid, draws).0
    {
      var nid := if req.instanceId.Some? then req.instanceId.value else uuid;
      if nid in ins {
        return Refused(Internal);
      }
      if req.config.None? || req.config.value.network.None? {
        return Panicked;
      }
      var statuses := DrawInterfaces(req.config.value.network.value.interfaces, draws);
      if statuses.None? {
        return Panicked;
      }
      var instance := Instance(Some(nid), req.machineId, req.config, None, "",
                               Some(InstanceStatus(PROVISIONING, statuses.value)));
      ins := ins[nid := instance];
      if req.machineId.None? {
        return Panicked;
      }
      if req.machineId.value !in m {
        m := m[req.machineId.value := Machine(req.machineId, None, "Ready")];
      }
      return Answer(instance);
    }

    method ReleaseInstance(id: Option<string>) returns (reply: Reply<()>)
      modifies this
      ensures (View(), reply) == Release(old(View()), id)
    {
      if id.None? {
        return Refused(InvalidArgument);
      }
      if id.value !in ins {
        return Refused(NotFound);
      }
      ins := ins - {id.value};
      return Answer(());
    }

    method UpdateInstanceConfig(id: Option<string>, config: Option<InstanceConfig>, metadata: Option<string>, uuid: string)
      returns (reply: Reply<Instance>)
      modifies this
      ensures (View(), reply) == UpdateInstance(old(View()), id, config, metadata, uuid)
    {
      if id.None? || id.value == "" {
        return Refused(InvalidArgument);
      }
      if id.value !in ins {
        return Refused(NotFound);
      }
      var instance := ins[id.value];
      if config.Some? {
        var network := NetworkOf(instance.config);
        instance := instance.(config := Some(config.value.(network := network)));
      }
      if metadata.Some? {
        instance := instance.(metadata := metadata);
      }
      instance := instance.(configVersion := uuid);
      ins := ins[id.value := instance];
      return Answer(instance);
    }

    /** The response lists each instance found, as it is once the request is done. */
    method FindInstancesByIds(ids: seq<string>) returns (found: seq<Instance>)
      modifies this
      ensures View() == old(View()).(ins := ReadAll(old(ins), ids))
      ensures found == Found(ReadAll(old(ins), ids), ids)
    {
      var listed: seq<string> := [];
      for k := 0 to |ids|
        invariant View() == old(View()).(ins := ReadAll(old(ins), ids[..k]))
        invariant ins.Keys == old(ins).Keys
        invariant listed == Present(old(ins).Keys, ids[..k])
      {
        assert ids[..k + 1][..k] == ids[..k];
        var id := ids[k];
        if id in ins {
          var instance := ins[id];
          if instance.status.Some? {
            var state := instance.status.value.state;
            match state {
              case PROVISIONING => state := CONFIGURING;
              case CONFIGURING => state := READY;
              case READY =>
            }
            instance := instance.(status := Some(instance.status.value.(state := state)));
          }
          ins := ins[id := instance];
          listed := listed + [id];
        }
      }
      assert ids[..|ids|] == ids;
      FoundListed(ins, ids);
      return seq(|listed|, k requires 0 <= k < |listed| && listed[k] in ins reads this => ins[listed[k]]);
    }

    // ----- VPC peerings -----

    method CreateVpcPeering(requested: Option<string>, vpc: string, peer: string, uuid: string)
      returns (reply: Reply<VpcPeering>)
      modifies this
      ensures (View(), reply) == CreatePeering(old(View()), requested, vpc, peer, uuid)
    {
      if vpc == "" || peer == "" {
        return Refused(InvalidArgument);
      }
      var nid := uuid;
      if requested.Some? && requested.value != "" {
        nid := requested.value;
      } else if DEFAULT_PEERING !in vpp {
        nid := DEFAULT_PEERING;
      }
      if nid in vpp {
        return Refused(AlreadyExists);
      }
      var rest := vpp.Keys;
      while rest != {}
        invariant rest <= vpp.Keys && View() == old(View())
        invariant forall k | k in vpp.Keys - rest :: !MatchesPair(vpp[k], vpc, peer)
        decreases |rest|
      {
        var k :| k in rest;
        if MatchesPair(vpp[k], vpc, peer) {
          return Refused(AlreadyExists);
        }
        rest := rest - {k};
      }
      var peering := VpcPeering(Some(nid), vpc, peer);
      vpp := vpp[nid := peering];
      return Answer(peering);
    }

    method DeleteVpcPeering(id: string) returns (reply: Reply<()>)
      modifies this
      ensures (View(), reply) == DeletePeering(old(View()), id)
    {
      if id == "" {
        return Refused(InvalidArgument);
      }
      if id !in vpp {
        return Refused(NotFound);
      }
      vpp := vpp - {id};
      return Answer(());
    }

    /** Exactly the peerings with the filter VPC on either side, each once and in ascending order;
        no filter lists them all. */
    method FindVpcPeeringIds(filterVpc: string) returns (ids: seq<string>)
      ensures forall id :: id in ids <==>
                id in vpp && (filterVpc == "" || vpp[id].vpcId == filterVpc || vpp[id].peerVpcId == filterVpc)
      ensures forall i, j | 0 <= i < j < |ids| :: Less(ids[i], ids[j])
    {
      ids := [];
      var rest := vpp.Keys;
      while rest != {}
        invariant rest <= vpp.Keys
        invariant forall id :: id in ids <==>
                    id in vpp.Keys - rest &&
                    (filterVpc == "" || vpp[id].vpcId == filterVpc || vpp[id].peerVpcId == filterVpc)
        invariant forall i, j | 0 <= i < j < |ids| :: ids[i] != ids[j]
        decreases |rest|
      {
        var id :| id in rest;
        rest := rest - {id};
        if filterVpc != "" && vpp[id].vpcId != filterVpc && vpp[id].peerVpcId != filterVpc {
          continue;
        }
        ids := ids + [id];
      }
      SortedDistinct(ids);
      ids := SortBy((id: string) => id, ids);
    }

    // ----- OS images and operating systems -----

    method EnsureOperatingSystemStub(id: string, req: OsImageAttributes, now: string)
      modifies this
      ensures View() == old(View()).(oss := Stubbed(old(oss), id, req, now))
    {
      if id == "" {
        return;
      }
      var os := if id in oss then oss[id] else NewStub(id);
      if req.tenantOrganizationId != "" {
        os := os.(tenantOrganizationId := req.tenantOrganizationId);
      }
      if req.name.Some? && req.name.value != "" {
        os := os.(name := req.name.value);
      }
      if req.description.Some? {
        os := os.(description := req.description);
      }
      if os.created == "" {
        os := os.(created := now);
      }
      os := os.(updated := now, isActive := true);
      oss := oss[id := os];
    }

    method CreateOsImage(req: OsImageAttributes, uuid: string, now: string) returns (reply: Reply<OsImage>)
      modifies this
      ensures (View(), reply) == CreateImage(old(View()), req, uuid, now)
    {
      var nid := if req.id.Some? && req.id.value != "" then req.id.value else uuid;
      var attributes := req.(id := Some(nid));
      if nid in osi {
        return Refused(AlreadyExists);
      }
      var image := OsImage(Some(attributes));
      osi := osi[nid := image];
      EnsureOperatingSystemStub(nid, attributes, now);
      return Answer(image);
    }

    method UpdateOsImage(req: OsImageAttributes, now: string) returns (reply: Reply<OsImage>)
      modifies this
      ensures (View(), reply) == UpdateImage(old(View()), req, now)
    {
      if req.id.None? || req.id.value == "" {
        return Refused(InvalidArgument);
      }
      if req.id.value !in osi {
        return Refused(NotFound);
      }
      var image := osi[req.id.value].(attributes := Some(req));
      osi := osi[req.id.value := image];
      EnsureOperatingSystemStub(req.id.value, req, now);
      return Answer(image);
    }

    method DeleteOsImage(id: string) returns (reply: Reply<()>)
      modifies this
      ensures (View(), reply) == DeleteImage(old(View()), id)
    {
      if id == "" {
        return Refused(InvalidArgument);
      }
      if id !in osi {
        return Refused(NotFound);
      }
      osi := osi - {id};
      oss := oss - {id};
      return Answer(());
    }

    method CreateOperatingSystem(req: OperatingSystem, uuid: string, now: string) returns (reply: Reply<OperatingSystem>)
      modifies this
      ensures (View(), reply) == CreateOs(old(View()), req, uuid, now)
    {
      var nid := if req.id.Some? && req.id.value != "" then req.id.value else uuid;
      var os := req.(id := Some(nid), created := now, updated := now, userData := None);
      var trimmed := TrimSpace(if req.userData.Some? then req.userData.value else "");
      if trimmed != "" {
        os := os.(userData := Some(trimmed));
      }
      if nid in oss {
        return Refused(AlreadyExists);
      }
      oss := oss[nid := os];
      return Answer(os);
    }

    method UpdateOperatingSystem(id: string, req: OsUpdate, now: string) returns (reply: Reply<OperatingSystem>)
      modifies this
      ensures (View(), reply) == UpdateOs(old(View()), id, req, now)
    {
      if id == "" {
        return Refused(InvalidArgument);
      }
      if id !in oss {
        return Refused(NotFound);
      }
      var os := oss[id];
      if req.name.Some? {
        os := os.(name := req.name.value);
      }
      if req.description.Some? {
        os := os.(description := req.description);
      }
      if req.isActive.Some? {
        os := os.(isActive := req.isActive.value);
      }
      if req.userData.Some? {
        var trimmed := TrimSpace(req.userData.value);
        os := os.(userData := if trimmed == "" then None else Some(trimmed));
      }
      if req.detail.Some? {
        os := os.(detail := req.detail.value);
      }
      os := os.(updated := now);
      oss := oss[id := os];
      return Answer(os);
    }
  }

  /** One interface that panics makes the whole allocation panic. */
  lemma {:induction false} StatusesStayNone(
    vp: map<string, VpcPrefix>, interfaces: seq<InterfaceConfig>, draws: seq<Draw>, k: nat)
    requires |interfaces| == |draws| && k <= |interfaces|
    requires StatusesFor(vp, interfaces[..k], draws[..k]).None?
    ensures StatusesFor(vp, interfaces, draws).None?
  {
    var n := |interfaces|;
    if k == n {
      assert interfaces[..n] == interfaces && draws[..n] == draws;
    } else {
      assert interfaces[..n - 1][..k] == interfaces[..k] && draws[..n - 1][..k] == draws[..k];
      StatusesStayNone(vp, interfaces[..n - 1], draws[..n - 1], k);
    }
  }

  /** The requested ids that have an entry, in order and with repeats. */
  function Present(keys: set<string>, ids: seq<string>): seq<string> {
    if ids == [] then []
    else
      var id := ids[|ids| - 1];
      Present(keys, ids[..|ids| - 1]) + if id in keys then [id] else []
  }

  lemma {:induction false} FoundListed(ins: map<string, Instance>, ids: seq<string>)
    ensures forall k | 0 <= k < |Present(ins.Keys, ids)| :: Present(ins.Keys, ids)[k] in ins
    ensures |Found(ins, ids)| == |Present(ins.Keys, ids)|
    ensures forall k | 0 <= k < |Found(ins, ids)| :: Found(ins, ids)[k] == ins[Present(ins.Keys, ids)[k]]
  {
    if ids != [] {
      FoundListed(ins, ids[..|ids| - 1]);
    }
  }

  lemma SortedDistinct(ids: seq<string>)
    requires forall i, j | 0 <= i < j < |ids| :: ids[i] != ids[j]
    ensures
      var sorted := SortBy((id: string) => id, ids);
      && (forall id :: id in sorted <==> id in ids)
      && (forall i, j | 0 <= i < j < |sorted| :: Less(sorted[i], sorted[j]))
  {
    var key := (id: string) => id;
    var sorted := SortBy(key, ids);
    SortBySorts(key, ids);
    forall id ensures id in sorted <==> id in ids {
      assert id in multiset(sorted) <==> id in multiset(ids);
    }
    forall i, j | 0 <= i < j < |sorted| ensures Less(sorted[i], sorted[j]) {
      OnceEach(ids, sorted[i]);
      RepeatsCount(sorted, i, j);
      assert !Less(key(sorted[j]), key(sorted[i]));
      LessTotal(sorted[i], sorted[j]);
    }
  }

  lemma RepeatsCount(s: seq<string>, i: nat, j: nat)
    requires i < j < |s|
    ensures s[i] == s[j] ==> multiset(s)[s[i]] >= 2
  {
    var left, right := s[..i + 1], s[i + 1..];
    assert s == left + right;
    assert left[i] == s[i] && right[j - i - 1] == s[j];
    assert s[i] in multiset(left) && s[j] in multiset(right);
  }

  lemma {:induction false} OnceEach(ids: seq<string>, id: string)
    requires forall i, j | 0 <= i < j < |ids| :: ids[i] != ids[j]
    ensures multiset(ids)[id] <= 1
  {
    if ids != [] {
      var n := |ids| - 1;
      OnceEach(ids[..n], id);
      assert ids == ids[..n] + [ids[n]];
      if ids[n] == id {
        assert id !in ids[..n];
        assert id !in multiset(ids[..n]);
      }
    }
  }
}
