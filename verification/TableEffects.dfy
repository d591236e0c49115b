/** What the handlers of peerings, OS images and operating systems answer and store. */
module TableEffects {
  import opened Outcomes
  import opened Text
  import HostAddress
  import opened Tables
  import opened TableRuns

  /** `b` is `a` without the entry `id`, and with every other one as it was. */
  ghost predicate OnlyRemoved<V>(a: map<string, V>, b: map<string, V>, id: string) {
    id !in b && forall k :: (k in b <==> k in a && k != id) && (k in b ==> b[k] == a[k])
  }

  /** `b` is `a` with `v` under `id`, and with every other entry as it was. */
  ghost predicate OnlyStored<V>(a: map<string, V>, b: map<string, V>, id: string, v: V) {
    id in b && b[id] == v && forall k | k != id :: (k in b <==> k in a) && (k in b ==> b[k] == a[k])
  }

  // ----- VPC peerings -----

  /** Some peering joins the two VPCs, in either direction. */
  ghost predicate Peered(t: Tables, vpc: string, peer: string) {
    exists k | k in t.vpp :: {t.vpp[k].vpcId, t.vpp[k].peerVpcId} == {vpc, peer}
  }

  lemma PeeredExactly(t: Tables, vpc: string, peer: string)
    ensures Peered(t, vpc, peer) <==> exists k | k in t.vpp :: MatchesPair(t.vpp[k], vpc, peer)
  {
    forall k | k in t.vpp
      ensures MatchesPair(t.vpp[k], vpc, peer) <==> {t.vpp[k].vpcId, t.vpp[k].peerVpcId} == {vpc, peer}
    {
      MatchingPair(t.vpp[k], VpcPeering(None, vpc, peer));
    }
  }

  /** A peering is created exactly for two VPCs that are named and not peered yet, under an id that is free: the
      requested one, else the default one while it is free, else a generated one. The VPC and its peer are stored as
      they were asked for. */
  lemma CreatePeeringMeans(t: Tables, requested: Option<string>, vpc: string, peer: string, uuid: string)
    ensures
      var (t', reply) := CreatePeering(t, requested, vpc, peer, uuid);
      var id := if requested.Some? && requested.value != "" then requested.value
                else if DEFAULT_PEERING !in t.vpp then DEFAULT_PEERING else uuid;
      && (reply == Refused(InvalidArgument) <==> vpc == "" || peer == "")
      && (reply.Answer? <==> vpc != "" && peer != "" && id !in t.vpp && !Peered(t, vpc, peer))
      && (!reply.Answer? ==> t' == t)
      && (reply.Answer? ==>
            && reply.value == VpcPeering(Some(id), vpc, peer)
            && t' == t.(vpp := t'.vpp) && OnlyStored(t.vpp, t'.vpp, id, reply.value))
  {
    PeeredExactly(t, vpc, peer);
  }

  lemma DeletePeeringMeans(t: Tables, id: string)
    ensures
      var (t', reply) := DeletePeering(t, id);
      && (reply.Answer? <==> id != "" && id in t.vpp)
      && (reply == Refused(NotFound) <==> id != "" && id !in t.vpp)
      && (!reply.Answer? ==> t' == t)
      && (reply.Answer? ==> t' == t.(vpp := t'.vpp) && OnlyRemoved(t.vpp, t'.vpp, id))
  {
  }

  /** Deleting a new peering undoes its creation, and the pair can be peered again. */
  lemma PeeringUndone(t: Tables, requested: Option<string>, vpc: string, peer: string, uuid: string)
    requires CreatePeering(t, requested, vpc, peer, uuid).1.Answer? && uuid != ""
    ensures
      var (t', reply) := CreatePeering(t, requested, vpc, peer, uuid);
      reply.value.id.Some? && DeletePeering(t', reply.value.id.value) == (t, Answer(()))
  {
    var (t', reply) := CreatePeering(t, requested, vpc, peer, uuid);
    CreatePeeringMeans(t, requested, vpc, peer, uuid);
    assert t'.vpp - {reply.value.id.value} == t.vpp;
  }

  // ----- OS images -----

  function Given(text: Option<string>, before: string): string {
    if text.Some? && text.value != "" then text.value else before
  }

  /** The operating system entry that goes with an image: the tenant and name of the image where it gives one, its
      description where it has one, active, updated now, created now unless it was there before. */
  ghost predicate GoesWith(os: OperatingSystem, before: Option<OperatingSystem>, id: string, req: OsImageAttributes, now: string) {
    && os.tenantOrganizationId == Given(Some(req.tenantOrganizationId), if before.Some? then before.value.tenantOrganizationId else "")
    && os.name == Given(req.name, if before.Some? then before.value.name else "")
    && os.description == (if req.description.Some? then req.description
                          else if before.Some? then before.value.description else None)
    && os.isActive && os.updated == now
    && os.created == (if before.Some? && before.value.created != "" then before.value.created else now)
    && os.id == (if before.Some? then before.value.id else Some(id))
    && os.userData == (if before.Some? then before.value.userData else None)
  }

  ghost predicate StubStored(t: Tables, t': Tables, id: string, req: OsImageAttributes, now: string) {
    && id in t'.oss && OnlyStored(t.oss, t'.oss, id, t'.oss[id])
    && GoesWith(t'.oss[id], if id in t.oss then Some(t.oss[id]) else None, id, req, now)
  }

  /** An image is created exactly under a free id, the requested or a generated one, and stored with its operating
      system entry. */
  lemma CreateImageMeans(t: Tables, req: OsImageAttributes, uuid: string, now: string)
    requires uuid != ""
    ensures
      var (t', reply) := CreateImage(t, req, uuid, now);
      var id := Given(req.id, uuid);
      && (reply.Answer? <==> id !in t.osi) && (!reply.Answer? ==> t' == t && reply == Refused(AlreadyExists))
      && (reply.Answer? ==>
            && reply.value == OsImage(Some(req.(id := Some(id))))
            && t' == t.(osi := t'.osi, oss := t'.oss) && OnlyStored(t.osi, t'.osi, id, reply.value)
            && StubStored(t, t', id, req, now))
  {
  }

  /** An update replaces the attributes of an image that is there, and refreshes its operating system entry. */
  lemma UpdateImageMeans(t: Tables, req: OsImageAttributes, now: string)
    ensures
      var (t', reply) := UpdateImage(t, req, now);
      && (reply.Answer? <==> req.id.Some? && req.id.value != "" && req.id.value in t.osi)
      && (reply == Refused(NotFound) <==> req.id.Some? && req.id.value != "" && req.id.value !in t.osi)
      && (!reply.Answer? ==> t' == t)
      && (reply.Answer? ==>
            && reply.value == OsImage(Some(req))
            && t' == t.(osi := t'.osi, oss := t'.oss) && OnlyStored(t.osi, t'.osi, req.id.value, reply.value)
            && StubStored(t, t', req.id.value, req, now))
  {
  }

  lemma DeleteImageMeans(t: Tables, id: string)
    ensures
      var (t', reply) := DeleteImage(t, id);
      && (reply.Answer? <==> id != "" && id in t.osi) && (reply == Refused(NotFound) <==> id != "" && id !in t.osi)
      && (!reply.Answer? ==> t' == t)
      && (reply.Answer? ==> t' == t.(osi := t'.osi, oss := t'.oss) && OnlyRemoved(t.osi, t'.osi, id) && OnlyRemoved(t.oss, t'.oss, id))
  {
  }

  /** Deleting a new image undoes its creation, unless an operating system sat under its id before: that goes too. */
  lemma ImageUndone(t: Tables, req: OsImageAttributes, uuid: string, now: string)
    requires uuid != "" && CreateImage(t, req, uuid, now).1.Answer?
    ensures
      var id := Given(req.id, uuid);
      var (t', reply) := DeleteImage(CreateImage(t, req, uuid, now).0, id);
      reply.Answer? && (t' == t <==> id !in t.oss)
  {
    var id := Given(req.id, uuid);
    var t1 := CreateImage(t, req, uuid, now).0;
    CreateImageMeans(t, req, uuid, now);
    DeleteImageMeans(t1, id);
    var t' := DeleteImage(t1, id).0;
    assert t'.osi == t.osi;
    if id !in t.oss {
      assert t'.oss == t.oss;
    }
  }

  // ----- Operating systems -----

  /** An operating system is created exactly under a free id, the requested or a generated one, as it was asked for;
      user data lose the white space around them, and count as none when nothing is left. */
  lemma CreateOsMeans(t: Tables, req: OperatingSystem, uuid: string, now: string)
    ensures
      var (t', reply) := CreateOs(t, req, uuid, now);
      var id := Given(req.id, uuid);
      && (reply.Answer? <==> id !in t.oss) && (!reply.Answer? ==> t' == t && reply == Refused(AlreadyExists))
      && (reply.Answer? ==>
            && t' == t.(oss := t'.oss) && OnlyStored(t.oss, t'.oss, id, reply.value)
            && reply.value.id == Some(id) && reply.value.created == reply.value.updated == now
            && reply.value.userData == (if req.userData.None? || TrimSpace(req.userData.value) == "" then None
                                        else Some(TrimSpace(req.userData.value)))
            && reply.value.name == req.name && reply.value.description == req.description
            && reply.value.isActive == req.isActive && reply.value.tenantOrganizationId == req.tenantOrganizationId
            && reply.value.detail == req.detail)
  {
  }

  /** An update changes the fields it carries, and no others. */
  lemma UpdateOsMeans(t: Tables, id: string, req: OsUpdate, now: string)
    ensures
      var (t', reply) := UpdateOs(t, id, req, now);
      && (reply.Answer? <==> id != "" && id in t.oss) && (reply == Refused(NotFound) <==> id != "" && id !in t.oss)
      && (!reply.Answer? ==> t' == t)
      && (reply.Answer? ==>
            var before, after := t.oss[id], reply.value;
            && t' == t.(oss := t'.oss) && OnlyStored(t.oss, t'.oss, id, after)
            && (if req.name.Some? then after.name == req.name.value else after.name == before.name)
            && (if req.description.Some? then after.description == req.description else after.description == before.description)
            && (if req.isActive.Some? then after.isActive == req.isActive.value else after.isActive == before.isActive)
            && (req.userData.None? ==> after.userData == before.userData)
            && (req.userData.Some? && TrimSpace(req.userData.value) == "" ==> after.userData == None)
            && (req.userData.Some? && TrimSpace(req.userData.value) != "" ==>
                  after.userData == Some(TrimSpace(req.userData.value)))
            && (if req.detail.Some? then after.detail == req.detail.value else after.detail == before.detail)
            && after.updated == now && after.created == before.created && after.id == before.id
            && after.tenantOrganizationId == before.tenantOrganizationId)
  {
  }

  /** The later of two updates wins field by field; where it carries nothing the earlier one counts. */
  function Both(a: OsUpdate, b: OsUpdate): OsUpdate {
    OsUpdate(if b.name.Some? then b.name else a.name, if b.description.Some? then b.description else a.description,
             if b.isActive.Some? then b.isActive else a.isActive,
             if b.userData.Some? then b.userData else a.userData, if b.detail.Some? then b.detail else a.detail)
  }

  lemma StoredTwice<V>(m: map<string, V>, id: string, a: V, b: V)
    ensures m[id := a][id := b] == m[id := b]
  {
  }

  lemma SameUpdate(t: Tables, id: string, a: OsUpdate, b: OsUpdate, now: string, later: string)
    requires id != "" && id in t.oss
    ensures
      UpdateOs(UpdateOs(t, id, a, now).0, id, b, later).1 == UpdateOs(t, id, Both(a, b), later).1
  {
  }

  /** Two updates one after the other leave what the two together would have left. */
  lemma UpdatesCompose(t: Tables, id: string, a: OsUpdate, b: OsUpdate, now: string, later: string)
    requires id != "" && id in t.oss
    ensures UpdateOs(UpdateOs(t, id, a, now).0, id, b, later) == UpdateOs(t, id, Both(a, b), later)
  {
    var t1 := UpdateOs(t, id, a, now).0;
    SameUpdate(t, id, a, b, now, later);
    StoredTwice(t.oss, id, t1.oss[id], UpdateOs(t1, id, b, later).1.value);
  }

  // ----- VPCs, segments, prefixes and instance types -----

  /** A VPC is created exactly with a name and under a free id: the requested one, else the default one while it is
      free, else a generated one. */
  lemma CreateVpcMeans(t: Tables, requested: Option<string>, name: string, detail: string, uuid: string)
    requires uuid != ""
    ensures
      var (t', verdict) := Apply(t, CreateVpc(requested, name, detail, uuid));
      var id := if requested.Some? && requested.value != "" then requested.value
                else if DEFAULT_VPC !in t.v then DEFAULT_VPC else uuid;
      && (verdict.Succeeded? <==> name != "" && id !in t.v) && (!verdict.Succeeded? ==> t' == t)
      && (verdict.Succeeded? ==> t' == t.(v := t'.v) && OnlyStored(t.v, t'.v, id, Vpc(Some(id), name, detail)))
  {
  }

  /** A VPC that is there is renamed, unless the name asked for is empty. */
  lemma UpdateVpcMeans(t: Tables, target: Option<string>, name: string)
    ensures
      var (t', verdict) := Apply(t, UpdateVpc(target, name));
      && (verdict.Succeeded? <==> target.Some? && target.value in t.v) && (!verdict.Succeeded? || name == "" ==> t' == t)
      && (verdict.Succeeded? && name != "" ==>
            t' == t.(v := t'.v) && OnlyStored(t.v, t'.v, target.value, t.v[target.value].(name := name)))
  {
  }

  lemma DeleteVpcMeans(t: Tables, target: Option<string>)
    ensures
      var (t', verdict) := Apply(t, DeleteVpc(target));
      && (verdict.Succeeded? <==> target.Some? && target.value in t.v) && (!verdict.Succeeded? ==> t' == t)
      && (verdict.Succeeded? ==> t' == t.(v := t'.v) && OnlyRemoved(t.v, t'.v, target.value))
  {
  }

  lemma SegmentsMean(t: Tables, name: string, detail: string, uuid: string, target: Option<string>)
    requires uuid != ""
    ensures
      var (t', verdict) := Apply(t, CreateNetworkSegment(name, detail, uuid));
      var id := if DEFAULT_SEGMENT !in t.ns then DEFAULT_SEGMENT else uuid;
      && (verdict.Succeeded? <==> name != "") && (!verdict.Succeeded? ==> t' == t)
      && (verdict.Succeeded? ==> t' == t.(ns := t'.ns) && OnlyStored(t.ns, t'.ns, id, NetworkSegment(Some(id), name, detail)))
    ensures
      var (t', verdict) := Apply(t, DeleteNetworkSegment(target));
      && (verdict.Succeeded? <==> target.Some? && target.value in t.ns) && (!verdict.Succeeded? ==> t' == t)
      && (verdict.Succeeded? ==> t' == t.(ns := t'.ns) && OnlyRemoved(t.ns, t'.ns, target.value))
  {
  }

  /** A prefix is created exactly under a free id; without a range it gets the default one, and without a VPC the
      default VPC. */
  lemma CreateVpcPrefixMeans(t: Tables, requested: Option<string>, cidr: Option<HostAddress.Prefix>, vpc: string,
                             detail: string, uuid: string)
    requires uuid != ""
    ensures
      var (t', verdict) := Apply(t, CreateVpcPrefix(requested, cidr, vpc, detail, uuid));
      var id := if requested.Some? && requested.value != "" then requested.value
                else if DEFAULT_VPC_PREFIX !in t.vp then DEFAULT_VPC_PREFIX else uuid;
      && (verdict.Succeeded? <==> id !in t.vp) && (!verdict.Succeeded? ==> t' == t)
      && (verdict.Succeeded? ==>
            && t' == t.(vp := t'.vp) && id in t'.vp && OnlyStored(t.vp, t'.vp, id, t'.vp[id])
            && t'.vp[id].id == Some(id) && t'.vp[id].vpcId == (if vpc != "" then vpc else DEFAULT_VPC)
            && t'.vp[id].prefix == (if cidr.Some? then cidr else Some(DEFAULT_CIDR)) && t'.vp[id].detail == detail)
  {
  }

  /** An update changes the range and the other fields of a prefix where it carries them. */
  lemma UpdateVpcPrefixMeans(t: Tables, id: string, cidr: Option<HostAddress.Prefix>, detail: Option<string>)
    ensures
      var (t', verdict) := Apply(t, UpdateVpcPrefix(id, cidr, detail));
      && (verdict.Succeeded? <==> id != "" && id in t.vp) && (!verdict.Succeeded? ==> t' == t)
      && (verdict.Succeeded? ==>
            && t' == t.(vp := t'.vp) && id in t'.vp && OnlyStored(t.vp, t'.vp, id, t'.vp[id])
            && t'.vp[id].id == t.vp[id].id && t'.vp[id].vpcId == t.vp[id].vpcId
            && t'.vp[id].prefix == (if cidr.Some? then cidr else t.vp[id].prefix)
            && t'.vp[id].detail == (if detail.Some? then detail.value else t.vp[id].detail))
  {
  }

  lemma DeleteVpcPrefixMeans(t: Tables, id: string)
    ensures
      var (t', verdict) := Apply(t, DeleteVpcPrefix(id));
      && (verdict.Succeeded? <==> id != "" && id in t.vp) && (!verdict.Succeeded? ==> t' == t)
      && (verdict.Succeeded? ==> t' == t.(vp := t'.vp) && OnlyRemoved(t.vp, t'.vp, id))
  {
  }

  lemma InstanceTypesMean(t: Tables, id: string, detail: string, now: string)
    ensures
      var (t', verdict) := Apply(t, CreateInstanceType(id, detail, now));
      && (verdict.Succeeded? <==> id != "" && id !in t.it) && (!verdict.Succeeded? ==> t' == t)
      && (verdict.Succeeded? ==> t' == t.(it := t'.it) && OnlyStored(t.it, t'.it, id, InstanceType(id, now, detail)))
    ensures
      var (t', verdict) := Apply(t, DeleteInstanceType(id));
      && (verdict.Succeeded? <==> id != "" && id in t.it) && (!verdict.Succeeded? ==> t' == t)
      && (verdict.Succeeded? ==> t' == t.(it := t'.it) && OnlyRemoved(t.it, t'.it, id))
  {
  }

  /** Machines are associated with a type all together or not at all: exactly when the type is there, some machine is
      named, and all of them are there without another type. A removal takes the type off one machine. */
  lemma AssociationsMean(t: Tables, id: string, machineIds: seq<string>)
    ensures
      var (t', verdict) := Apply(t, AssociateMachinesWithInstanceType(id, machineIds));
      && (verdict.Succeeded? <==>
            && id != "" && id in t.it && machineIds != []
            && forall mid | mid in machineIds ::
                 mid in t.m && (t.m[mid].instanceTypeId.None? || t.m[mid].instanceTypeId.value in ["", id]))
      && (!verdict.Succeeded? ==> t' == t)
      && (verdict.Succeeded? ==>
            && t' == t.(m := t'.m) && t'.m.Keys == t.m.Keys
            && forall mid | mid in t.m ::
                 t'.m[mid] == if mid in machineIds then t.m[mid].(instanceTypeId := Some(id)) else t.m[mid])
    ensures
      var (t', verdict) := Apply(t, RemoveMachineInstanceTypeAssociation(id));
      && (verdict.Succeeded? <==> id != "") && (!verdict.Succeeded? || id !in t.m ==> t' == t)
      && (verdict.Succeeded? && id in t.m ==>
            t' == t.(m := t'.m) && OnlyStored(t.m, t'.m, id, t.m[id].(instanceTypeId := None)))
  {
  }
}
