/** Which requests are followed by a save (internal/statestore/methods.go), against what the handlers do. */
module StateMethods {
  import opened Outcomes
  import opened Tables

  const READ_ONLY: seq<string> := ["Find", "Get", "List", "Search", "Version", "Describe"]
  const MUTATING: set<string> := {"FindInstancesByIds"}

  function LastIndex(s: string, c: char): (i: int)
    ensures -1 <= i < |s| && (i >= 0 ==> s[i] == c)
    ensures forall j | i < j < |s| :: s[j] != c
  {
    if s == [] then -1
    else if s[|s| - 1] == c then |s| - 1
    else LastIndex(s[..|s| - 1], c)
  }

  function MethodBaseName(fullMethod: string): (name: string)
    ensures '/' !in name
  {
    var i := LastIndex(fullMethod, '/');
    if i >= 0 then fullMethod[i + 1..] else fullMethod
  }

  predicate ReadOnlyByPrefix(name: string) {
    exists prefix | prefix in READ_ONLY :: prefix <= name
  }

  predicate IsMutatingMethod(fullMethod: string) {
    var name := MethodBaseName(fullMethod);
    name in MUTATING || !ReadOnlyByPrefix(name)
  }

  const SERVICE := "/forge.Forge/"

  function NameOf(rpc: Rpc): string
    requires !rpc.Other?
  {
    match rpc
    case AllocateInstance(_, _, _) => "AllocateInstance"
    case ReleaseInstance(_) => "ReleaseInstance"
    case UpdateInstanceConfig(_, _, _, _) => "UpdateInstanceConfig"
    case FindInstancesByIds(_) => "FindInstancesByIds"
    case CreateVpcPeering(_, _, _, _) => "CreateVpcPeering"
    case DeleteVpcPeering(_) => "DeleteVpcPeering"
    case CreateOsImage(_, _, _) => "CreateOsImage"
    case UpdateOsImage(_, _) => "UpdateOsImage"
    case DeleteOsImage(_) => "DeleteOsImage"
    case CreateOperatingSystem(_, _, _) => "CreateOperatingSystem"
    case UpdateOperatingSystem(_, _, _) => "UpdateOperatingSystem"
    case CreateVpc(_, _, _, _) => "CreateVpc"
    case UpdateVpc(_, _) => "UpdateVpc"
    case DeleteVpc(_) => "DeleteVpc"
    case CreateNetworkSegment(_, _, _) => "CreateNetworkSegment"
    case DeleteNetworkSegment(_) => "DeleteNetworkSegment"
    case CreateVpcPrefix(_, _, _, _, _) => "CreateVpcPrefix"
    case UpdateVpcPrefix(_, _, _) => "UpdateVpcPrefix"
    case DeleteVpcPrefix(_) => "DeleteVpcPrefix"
    case CreateInstanceType(_, _, _) => "CreateInstanceType"
    case DeleteInstanceType(_) => "DeleteInstanceType"
    case AssociateMachinesWithInstanceType(_, _) => "AssociateMachinesWithInstanceType"
    case RemoveMachineInstanceTypeAssociation(_) => "RemoveMachineInstanceTypeAssociation"
  }

  function FullMethod(rpc: Rpc): string {
    if rpc.Other? then rpc.fullMethod else SERVICE + NameOf(rpc)
  }

  /** Only the part behind the last slash decides. */
  lemma BaseNameAfterSlash(service: string, name: string)
    requires '/' !in name
    ensures MethodBaseName(service + "/" + name) == name
  {
    var full := service + "/" + name;
    var i := LastIndex(full, '/');
    assert full[|service|] == '/';
    assert forall j | |service| < j < |full| :: full[j] == name[j - |service| - 1];
  }

  /** A request is taken for a read exactly when its name starts with one of six words; FindInstancesByIds is not. */
  lemma ReadsExactly(service: string, name: string)
    requires '/' !in name
    ensures
      !IsMutatingMethod(service + "/" + name) <==>
      && name != "FindInstancesByIds"
      && (|| "Find" <= name || "Get" <= name || "List" <= name || "Search" <= name || "Version" <= name
          || "Describe" <= name)
  {
    BaseNameAfterSlash(service, name);
    PrefixesExactly(name);
  }

  lemma PrefixesExactly(name: string)
    ensures
      ReadOnlyByPrefix(name) <==>
      || "Find" <= name || "Get" <= name || "List" <= name || "Search" <= name || "Version" <= name || "Describe" <= name
  {
    assert READ_ONLY[0] in READ_ONLY && READ_ONLY[1] in READ_ONLY && READ_ONLY[2] in READ_ONLY;
    assert READ_ONLY[3] in READ_ONLY && READ_ONLY[4] in READ_ONLY && READ_ONLY[5] in READ_ONLY;
  }

  /** Every request that can change one of the nine maps is followed by a save. */
  lemma UnsavedRequestsChangeNothing(t: Tables, rpc: Rpc)
    requires WellFormed(rpc)
    ensures !IsMutatingMethod(FullMethod(rpc)) ==> Apply(t, rpc).0 == t
  {
    if !rpc.Other? {
      WritersAreMutating(rpc);
    }
  }

  lemma WritersAreMutating(rpc: Rpc)
    requires !rpc.Other?
    ensures IsMutatingMethod(FullMethod(rpc))
  {
    var name := NameOf(rpc);
    NamesHaveNoSlash(rpc);
    BaseNameAfterSlash("/forge.Forge", name);
    assert SERVICE == "/forge.Forge" + "/";
    assert FullMethod(rpc) == "/forge.Forge" + "/" + name;
    if !rpc.FindInstancesByIds? {
      NotReadOnly(rpc);
    }
  }

  predicate OnImagesOrVpcs(rpc: Rpc) {
    || rpc.CreateOsImage? || rpc.UpdateOsImage? || rpc.DeleteOsImage? || rpc.CreateOperatingSystem?
    || rpc.UpdateOperatingSystem? || rpc.CreateVpc? || rpc.UpdateVpc? || rpc.DeleteVpc? || rpc.CreateVpcPrefix?
    || rpc.UpdateVpcPrefix? || rpc.DeleteVpcPrefix?
  }

  predicate OnInstances(rpc: Rpc) {
    rpc.AllocateInstance? || rpc.ReleaseInstance? || rpc.UpdateInstanceConfig? || rpc.FindInstancesByIds?
  }

  predicate OnMachines(rpc: Rpc) {
    rpc.AssociateMachinesWithInstanceType? || rpc.RemoveMachineInstanceTypeAssociation?
  }

  lemma NamesHaveNoSlash(rpc: Rpc)
    requires !rpc.Other?
    ensures '/' !in NameOf(rpc)
  {
    if OnImagesOrVpcs(rpc) {
      ImageAndVpcNames(rpc);
    } else if OnInstances(rpc) {
      InstanceNames(rpc);
    } else if OnMachines(rpc) {
      MachineNames(rpc);
    } else {
      OtherNames(rpc);
    }
  }

  lemma ImageAndVpcNames(rpc: Rpc)
    requires OnImagesOrVpcs(rpc)
    ensures '/' !in NameOf(rpc)
  {
  }

  lemma InstanceNames(rpc: Rpc)
    requires OnInstances(rpc)
    ensures '/' !in NameOf(rpc)
  {
  }

  lemma MachineNames(rpc: Rpc)
    requires OnMachines(rpc)
    ensures '/' !in NameOf(rpc)
  {
    if rpc.AssociateMachinesWithInstanceType? {
      AssociateName();
    } else {
      RemoveName();
    }
  }

  lemma AssociateName()
    ensures '/' !in "AssociateMachinesWithInstanceType"
  {
  }

  lemma RemoveName()
    ensures '/' !in "RemoveMachineInstanceTypeAssociation"
  {
  }

  lemma OtherNames(rpc: Rpc)
    requires !rpc.Other? && !OnImagesOrVpcs(rpc) && !OnInstances(rpc) && !OnMachines(rpc)
    ensures '/' !in NameOf(rpc)
  {
  }

  lemma NotReadOnly(rpc: Rpc)
    requires !rpc.Other? && !rpc.FindInstancesByIds?
    ensures !ReadOnlyByPrefix(NameOf(rpc))
  {
    var name := NameOf(rpc);
    assert name[0] !in "FGLSV" && (name[0] == 'D' ==> name[2] == 'l');
    forall prefix | prefix in READ_ONLY ensures !(prefix <= name) {
      assert prefix[0] in "FGLSV" || (prefix[0] == 'D' && prefix[2] == 's');
    }
  }

  /** The exception is needed: by its prefix alone this request, which advances instances, would be
      taken for a read. */
  lemma FindInstancesByIdsNeedsTheException(t: Tables, id: string)
    requires id in t.ins && t.ins[id].status.Some? && !t.ins[id].status.value.state.READY?
    ensures ReadOnlyByPrefix("FindInstancesByIds")
    ensures IsMutatingMethod(FullMethod(FindInstancesByIds([id])))
    ensures Apply(t, FindInstancesByIds([id])).0 != t
  {
    assert "Find" in READ_ONLY && "Find" <= "FindInstancesByIds";
    WritersAreMutating(FindInstancesByIds([id]));
    assert ReadAll(t.ins, [id][..0]) == t.ins;
    assert Apply(t, FindInstancesByIds([id])).0.ins[id] == Read(t.ins[id]);
  }
}
