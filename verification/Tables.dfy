/** The nine persisted maps and what each handler that writes them does (internal/server). */
module Tables {
  import opened Outcomes
  import opened Text
  import opened HostAddress

  const DEFAULT_VPC := "00000000-0000-4000-8000-000000000000"
  const DEFAULT_SEGMENT := "00000000-0000-4000-9000-000000000000"
  const DEFAULT_PEERING := "00000000-0000-4000-8001-000000000000"
  const DEFAULT_VPC_PREFIX := "00000000-0000-4000-e000-000000000001"
  const DEFAULT_CIDR := Ipv4(0x0A00_0000, 16)

  // ----- Stored messages; `detail` stands for the fields no handler here looks at -----

  datatype Vpc = Vpc(id: Option<string>, name: string, detail: string)

  datatype NetworkSegment = NetworkSegment(id: Option<string>, name: string, detail: string)

  datatype Machine = Machine(id: Option<string>, instanceTypeId: Option<string>, detail: string)

  datatype VpcPrefix = VpcPrefix(id: Option<string>, vpcId: string, prefix: Option<Prefix>, detail: string)

  datatype VpcPeering = VpcPeering(id: Option<string>, vpcId: string, peerVpcId: string)

  datatype InstanceType = InstanceType(id: string, createdAt: string, detail: string)

  datatype TenantState = PROVISIONING | CONFIGURING | READY

  datatype InterfaceConfig = InterfaceConfig(ipAddress: string, vpcPrefixId: string, virtualFunction: bool)

  datatype Address = Given(text: string) | Drawn(octets: seq<Octet>)

  datatype InterfaceStatus = InterfaceStatus(mac: string, address: Address, virtualFunctionId: Option<int>)

  datatype NetworkConfig = NetworkConfig(interfaces: seq<InterfaceConfig>)

  datatype InstanceConfig = InstanceConfig(network: Option<NetworkConfig>, securityGroup: Option<string>, detail: string)

  datatype InstanceStatus = InstanceStatus(state: TenantState, interfaces: seq<InterfaceStatus>)

  datatype Instance = Instance(
    id: Option<string>, machineId: Option<string>, config: Option<InstanceConfig>,
    metadata: Option<string>, configVersion: string, status: Option<InstanceStatus>)

  datatype OsImageAttributes = OsImageAttributes(
    id: Option<string>, tenantOrganizationId: string, name: Option<string>, description: Option<string>, detail: string)

  datatype OsImage = OsImage(attributes: Option<OsImageAttributes>)

  datatype OperatingSystem = OperatingSystem(
    id: Option<string>, name: string, description: Option<string>, tenantOrganizationId: string,
    isActive: bool, userData: Option<string>, created: string, updated: string, detail: string)

  datatype Tables = Tables(
    v: map<string, Vpc>, ns: map<string, NetworkSegment>, ins: map<string, Instance>,
    m: map<string, Machine>, vp: map<string, VpcPrefix>, vpp: map<string, VpcPeering>,
    osi: map<string, OsImage>, oss: map<string, OperatingSystem>, it: map<string, InstanceType>)

  // ----- Instances -----

  /** The random values one interface consumes. */
  datatype Draw = Draw(hostWord: Word, anyWord: Word, mac: string, virtualFunctionId: int)

  /** The address of one interface, or none when drawing it panics. */
  function AddressFor(vp: map<string, VpcPrefix>, i: InterfaceConfig, draw: Draw): Option<Address> {
    if i.ipAddress != "" then Some(Given(i.ipAddress))
    else if i.vpcPrefixId != "" && i.vpcPrefixId in vp && vp[i.vpcPrefixId].prefix.Some? then
      match Generated(vp[i.vpcPrefixId].prefix.value, draw.hostWord)
      case Answer(octets) => Some(Drawn(octets))
      case Refused(_) => Some(Drawn(Octets(draw.anyWord)))
      case Panicked => None
    else Some(Drawn(Octets(draw.anyWord)))
  }

  /** The status entries of the first interfaces, or none when one of them panics. */
  function StatusesFor(vp: map<string, VpcPrefix>, interfaces: seq<InterfaceConfig>, draws: seq<Draw>)
    : (r: Option<seq<InterfaceStatus>>)
    requires |interfaces| == |draws|
    ensures r.Some? ==> |r.value| == |interfaces|
  {
    if interfaces == [] then Some([])
    else
      var n := |interfaces| - 1;
      var before := StatusesFor(vp, interfaces[..n], draws[..n]);
      var address := AddressFor(vp, interfaces[n], draws[n]);
      if before.None? || address.None? then None
      else
        var vf := if interfaces[n].virtualFunction then Some(draws[n].virtualFunctionId) else None;
        Some(before.value + [InterfaceStatus(draws[n].mac, address.value, vf)])
  }

  datatype AllocateRequest = AllocateRequest(
    instanceId: Option<string>, machineId: Option<string>, config: Option<InstanceConfig>)

  function InterfaceCount(req: AllocateRequest): nat {
    if req.config.Some? && req.config.value.network.Some? then |req.config.value.network.value.interfaces| else 0
  }

  function Allocate(t: Tables, req: AllocateRequest, uuid: string, draws: seq<Draw>): (Tables, Reply<Instance>)
    requires |draws| == InterfaceCount(req)
  {
    var nid := if req.instanceId.Some? then req.instanceId.value else uuid;
    if nid in t.ins then (t, Refused(Internal))
    else if req.config.None? || req.config.value.network.None? then (t, Panicked)
    else
      var statuses := StatusesFor(t.vp, req.config.value.network.value.interfaces, draws);
      if statuses.None? || req.machineId.None? then (t, Panicked)
      else
        var instance := Instance(Some(nid), req.machineId, req.config, None, "",
                                 Some(InstanceStatus(PROVISIONING, statuses.value)));
        var mid := req.machineId.value;
        (t.(ins := t.ins[nid := instance],
            m := if mid in t.m then t.m else t.m[mid := Machine(req.machineId, None, "Ready")]),
         Answer(instance))
  }

  function Release(t: Tables, id: Option<string>): (Tables, Reply<()>) {
    if id.None? then (t, Refused(InvalidArgument))
    else if id.value !in t.ins then (t, Refused(NotFound))
    else (t.(ins := t.ins - {id.value}), Answer(()))
  }

  function NetworkOf(config: Option<InstanceConfig>): Option<NetworkConfig> {
    if config.Some? then config.value.network else None
  }

  function UpdateInstance(t: Tables, id: Option<string>, config: Option<InstanceConfig>, metadata: Option<string>, uuid: string)
    : (Tables, Reply<Instance>)
  {
    if id.None? || id.value == "" then (t, Refused(InvalidArgument))
    else if id.value !in t.ins then (t, Refused(NotFound))
    else
      var updated := Reconfigured(t.ins[id.value], config, metadata, uuid);
      (t.(ins := t.ins[id.value := updated]), Answer(updated))
  }

  /** The configuration is replaced as a whole, except for its network. */
  function Reconfigured(i: Instance, config: Option<InstanceConfig>, metadata: Option<string>, uuid: string): Instance {
    i.(config := if config.Some? then Some(config.value.(network := NetworkOf(i.config))) else i.config,
       metadata := if metadata.Some? then metadata else i.metadata,
       configVersion := uuid)
  }

  function Advanced(state: TenantState): TenantState {
    match state
    case PROVISIONING => CONFIGURING
    case CONFIGURING => READY
    case READY => READY
  }

  function Read(instance: Instance): Instance {
    if instance.status.None? then instance
    else instance.(status := Some(instance.status.value.(state := Advanced(instance.status.value.state))))
  }

  /** The instances after reading `ids` one after the other, repeats included. */
  function ReadAll(ins: map<string, Instance>, ids: seq<string>): map<string, Instance> {
    if ids == [] then ins
    else
      var before := ReadAll(ins, ids[..|ids| - 1]);
      var id := ids[|ids| - 1];
      if id in before then before[id := Read(before[id])] else before
  }

  /** The reply holds references, so every entry shows the state after the whole request. */
  function Found(ins: map<string, Instance>, ids: seq<string>): seq<Instance> {
    if ids == [] then []
    else
      var id := ids[|ids| - 1];
      Found(ins, ids[..|ids| - 1]) + if id in ins then [ins[id]] else []
  }

  // ----- VPC peerings -----

  /** CreateVpc, CreateVpcPrefix and CreateVpcPeering: the requested id, else the default while it is
      free, else a generated one. */
  function ChooseId(requested: Option<string>, default: string, taken: set<string>, uuid: string): string {
    if requested.Some? && requested.value != "" then requested.value
    else if default !in taken then default
    else uuid
  }

  predicate MatchesPair(p: VpcPeering, a: string, b: string) {
    (p.vpcId == a && p.peerVpcId == b) || (p.vpcId == b && p.peerVpcId == a)
  }

  function CreatePeering(t: Tables, id: Option<string>, vpc: string, peer: string, uuid: string)
    : (Tables, Reply<VpcPeering>)
  {
    if vpc == "" || peer == "" then (t, Refused(InvalidArgument))
    else
      var nid := ChooseId(id, DEFAULT_PEERING, t.vpp.Keys, uuid);
      if nid in t.vpp || exists k | k in t.vpp :: MatchesPair(t.vpp[k], vpc, peer) then (t, Refused(AlreadyExists))
      else
        var p := VpcPeering(Some(nid), vpc, peer);
        (t.(vpp := t.vpp[nid := p]), Answer(p))
  }

  function DeletePeering(t: Tables, id: string): (Tables, Reply<()>) {
    if id == "" then (t, Refused(InvalidArgument))
    else if id !in t.vpp then (t, Refused(NotFound))
    else (t.(vpp := t.vpp - {id}), Answer(()))
  }

  // ----- OS images and operating systems -----

  /** ensureOperatingSystemStub. */
  function Stubbed(oss: map<string, OperatingSystem>, id: string, req: OsImageAttributes, now: string)
    : map<string, OperatingSystem>
  {
    if id == "" then oss
    else oss[id := Stub(if id in oss then oss[id] else NewStub(id), req, now)]
  }

  function NewStub(id: string): OperatingSystem {
    OperatingSystem(Some(id), "", None, "", false, None, "", "", "READY")
  }

  function Stub(os: OperatingSystem, req: OsImageAttributes, now: string): OperatingSystem {
    os.(tenantOrganizationId := if req.tenantOrganizationId != "" then req.tenantOrganizationId else os.tenantOrganizationId,
        name := if req.name.Some? && req.name.value != "" then req.name.value else os.name,
        description := if req.description.Some? then req.description else os.description,
        created := if os.created == "" then now else os.created,
        updated := now,
        isActive := true)
  }

  function ImageId(req: OsImageAttributes, uuid: string): string {
    if req.id.Some? && req.id.value != "" then req.id.value else uuid
  }

  function CreateImage(t: Tables, req: OsImageAttributes, uuid: string, now: string): (Tables, Reply<OsImage>) {
    var nid := ImageId(req, uuid);
    if nid in t.osi then (t, Refused(AlreadyExists))
    else
      var image := OsImage(Some(req.(id := Some(nid))));
      (t.(osi := t.osi[nid := image], oss := Stubbed(t.oss, nid, req, now)), Answer(image))
  }

  function UpdateImage(t: Tables, req: OsImageAttributes, now: string): (Tables, Reply<OsImage>) {
    if req.id.None? || req.id.value == "" then (t, Refused(InvalidArgument))
    else if req.id.value !in t.osi then (t, Refused(NotFound))
    else
      var image := OsImage(Some(req));
      (t.(osi := t.osi[req.id.value := image], oss := Stubbed(t.oss, req.id.value, req, now)), Answer(image))
  }

  function DeleteImage(t: Tables, id: string): (Tables, Reply<()>) {
    if id == "" then (t, Refused(InvalidArgument))
    else if id !in t.osi then (t, Refused(NotFound))
    else (t.(osi := t.osi - {id}, oss := t.oss - {id}), Answer(()))
  }

  /** TrimSpace, with blank user data treated as none. */
  function UserData(text: string): Option<string> {
    var trimmed := TrimSpace(text);
    if trimmed == "" then None else Some(trimmed)
  }

  function CreateOs(t: Tables, req: OperatingSystem, uuid: string, now: string): (Tables, Reply<OperatingSystem>) {
    var nid := if req.id.Some? && req.id.value != "" then req.id.value else uuid;
    if nid in t.oss then (t, Refused(AlreadyExists))
    else
      var os := req.(id := Some(nid), created := now, updated := now,
                     userData := if req.userData.Some? then UserData(req.userData.value) else None);
      (t.(oss := t.oss[nid := os]), Answer(os))
  }

  datatype OsUpdate = OsUpdate(
    name: Option<string>, description: Option<string>, isActive: Option<bool>, userData: Option<string>,
    detail: Option<string>)

  function Or<T>(a: Option<T>, b: T): T {
    if a.Some? then a.value else b
  }

  function UpdateOs(t: Tables, id: string, req: OsUpdate, now: string): (Tables, Reply<OperatingSystem>) {
    if id == "" then (t, Refused(InvalidArgument))
    else if id !in t.oss then (t, Refused(NotFound))
    else
      var os := t.oss[id];
      var updated := os.(
        name := Or(req.name, os.name),
        description := if req.description.Some? then req.description else os.description,
        isActive := Or(req.isActive, os.isActive),
        userData := if req.userData.Some? then UserData(req.userData.value) else os.userData,
        detail := Or(req.detail, os.detail),
        updated := now);
      (t.(oss := t.oss[id := updated]), Answer(updated))
  }

  // ----- Every handler that writes one of the nine maps -----

  datatype Rpc =
    | AllocateInstance(alloc: AllocateRequest, uuid: string, draws: seq<Draw>)
    | ReleaseInstance(instanceId: Option<string>)
    | UpdateInstanceConfig(instanceId: Option<string>, config: Option<InstanceConfig>, metadata: Option<string>, uuid: string)
    | FindInstancesByIds(ids: seq<string>)
    | CreateVpcPeering(requested: Option<string>, vpc: string, peer: string, uuid: string)
    | DeleteVpcPeering(id: string)
    | CreateOsImage(image: OsImageAttributes, uuid: string, now: string)
    | UpdateOsImage(image: OsImageAttributes, now: string)
    | DeleteOsImage(id: string)
    | CreateOperatingSystem(os: OperatingSystem, uuid: string, now: string)
    | UpdateOperatingSystem(id: string, osUpdate: OsUpdate, now: string)
    | CreateVpc(requested: Option<string>, name: string, detail: string, uuid: string)
    | UpdateVpc(target: Option<string>, name: string)
    | DeleteVpc(target: Option<string>)
    | CreateNetworkSegment(name: string, detail: string, uuid: string)
    | DeleteNetworkSegment(target: Option<string>)
    | CreateVpcPrefix(requested: Option<string>, cidr: Option<Prefix>, vpc: string, detail: string, uuid: string)
    | UpdateVpcPrefix(id: string, cidr: Option<Prefix>, newDetail: Option<string>)
    | DeleteVpcPrefix(id: string)
    | CreateInstanceType(id: string, detail: string, now: string)
    | DeleteInstanceType(id: string)
    | AssociateMachinesWithInstanceType(id: string, machineIds: seq<string>)
    | RemoveMachineInstanceTypeAssociation(id: string)
    | Other(fullMethod: string)

  predicate WellFormed(rpc: Rpc) {
    && (rpc.AllocateInstance? ==> |rpc.draws| == InterfaceCount(rpc.alloc))
    && ((rpc.CreateOsImage? || rpc.CreateOperatingSystem? || rpc.CreateVpc? || rpc.CreateNetworkSegment?
         || rpc.CreateVpcPrefix? || rpc.CreateVpcPeering? || rpc.AllocateInstance?) ==> rpc.uuid != "")
  }

  datatype Verdict = Succeeded | Rejected | Died

  function VerdictOf<T>(reply: Reply<T>): Verdict {
    match reply
    case Answer(_) => Succeeded
    case Refused(_) => Rejected
    case Panicked => Died
  }

  predicate CanAssociate(t: Tables, id: string, machineIds: seq<string>) {
    && id != "" && id in t.it && machineIds != []
    && forall mid | mid in machineIds :: mid in t.m && AssociationFree(t.m[mid], id)
  }

  predicate AssociationFree(machine: Machine, id: string) {
    machine.instanceTypeId.None? || machine.instanceTypeId.value == "" || machine.instanceTypeId.value == id
  }

  /** The tables after a request, and whether the handler answered, refused or panicked. */
  function Apply(t: Tables, rpc: Rpc): (Tables, Verdict)
    requires WellFormed(rpc)
  {
    match rpc
    case AllocateInstance(req, uuid, draws) => var (t', r) := Allocate(t, req, uuid, draws); (t', VerdictOf(r))
    case ReleaseInstance(id) => var (t', r) := Release(t, id); (t', VerdictOf(r))
    case UpdateInstanceConfig(id, config, metadata, uuid) =>
      var (t', r) := UpdateInstance(t, id, config, metadata, uuid); (t', VerdictOf(r))
    case FindInstancesByIds(ids) => (t.(ins := ReadAll(t.ins, ids)), Succeeded)
    case CreateVpcPeering(id, vpc, peer, uuid) =>
      var (t', r) := CreatePeering(t, id, vpc, peer, uuid); (t', VerdictOf(r))
    case DeleteVpcPeering(id) => var (t', r) := DeletePeering(t, id); (t', VerdictOf(r))
    case CreateOsImage(image, uuid, now) => var (t', r) := CreateImage(t, image, uuid, now); (t', VerdictOf(r))
    case UpdateOsImage(image, now) => var (t', r) := UpdateImage(t, image, now); (t', VerdictOf(r))
    case DeleteOsImage(id) => var (t', r) := DeleteImage(t, id); (t', VerdictOf(r))
    case CreateOperatingSystem(os, uuid, now) => var (t', r) := CreateOs(t, os, uuid, now); (t', VerdictOf(r))
    case UpdateOperatingSystem(id, update, now) => var (t', r) := UpdateOs(t, id, update, now); (t', VerdictOf(r))
    case CreateVpc(id, name, detail, uuid) =>
      var nid := ChooseId(id, DEFAULT_VPC, t.v.Keys, uuid);
      if name == "" || nid in t.v then (t, Rejected)
      else (t.(v := t.v[nid := Vpc(Some(nid), name, detail)]), Succeeded)
    case UpdateVpc(id, name) =>
      if id.None? || id.value !in t.v then (t, Rejected)
      else if name == "" then (t, Succeeded)
      else (t.(v := t.v[id.value := t.v[id.value].(name := name)]), Succeeded)
    case DeleteVpc(id) =>
      if id.None? || id.value !in t.v then (t, Rejected) else (t.(v := t.v - {id.value}), Succeeded)
    case CreateNetworkSegment(name, detail, uuid) =>
      if name == "" then (t, Rejected)
      else
        var nid := if DEFAULT_SEGMENT in t.ns then uuid else DEFAULT_SEGMENT;
        (t.(ns := t.ns[nid := NetworkSegment(Some(nid), name, detail)]), Succeeded)
    case DeleteNetworkSegment(id) =>
      if id.None? || id.value !in t.ns then (t, Rejected) else (t.(ns := t.ns - {id.value}), Succeeded)
    case CreateVpcPrefix(id, cidr, vpc, detail, uuid) =>
      var nid := ChooseId(id, DEFAULT_VPC_PREFIX, t.vp.Keys, uuid);
      if nid in t.vp then (t, Rejected)
      else
        var prefix := VpcPrefix(Some(nid), if vpc == "" then DEFAULT_VPC else vpc, Some(DefaultedCidr(cidr)), detail);
        (t.(vp := t.vp[nid := prefix]), Succeeded)
    case UpdateVpcPrefix(id, cidr, detail) =>
      if id == "" || id !in t.vp then (t, Rejected)
      else
        var p := t.vp[id];
        (t.(vp := t.vp[id := p.(prefix := if cidr.Some? then cidr else p.prefix, detail := Or(detail, p.detail))]),
         Succeeded)
    case DeleteVpcPrefix(id) =>
      if id == "" || id !in t.vp then (t, Rejected) else (t.(vp := t.vp - {id}), Succeeded)
    case CreateInstanceType(id, detail, now) =>
      if id == "" || id in t.it then (t, Rejected)
      else (t.(it := t.it[id := InstanceType(id, now, detail)]), Succeeded)
    case DeleteInstanceType(id) =>
      if id == "" || id !in t.it then (t, Rejected) else (t.(it := t.it - {id}), Succeeded)
    case AssociateMachinesWithInstanceType(id, machineIds) =>
      if !CanAssociate(t, id, machineIds) then (t, Rejected)
      else
        (t.(m := map mid | mid in t.m ::
               if mid in machineIds then t.m[mid].(instanceTypeId := Some(id)) else t.m[mid]),
         Succeeded)
    case RemoveMachineInstanceTypeAssociation(id) =>
      if id == "" then (t, Rejected)
      else if id in t.m then (t.(m := t.m[id := t.m[id].(instanceTypeId := None)]), Succeeded)
      else (t, Succeeded)
    case Other(_) => (t, Succeeded)
  }

  function DefaultedCidr(cidr: Option<Prefix>): Prefix {
    if cidr.Some? then cidr.value
    else
      assert Parsed(DEFAULT_CIDR) by {
        assert Pow2(16) == 65536 by {
          assert Pow2(8) == 256;
          Pow2Adds(8, 8);
        }
      }
      DEFAULT_CIDR
  }
}
