/** The identity handlers as they run: objects updated in place behind the server's map. */
module IdentityServer {
  import opened Outcomes
  import opened Text
  import opened IdentityModel

  class IdentityOrgState {
    var cfg: Option<ConfigResponse>
    var slot1: Option<Key>
    var slot2: Option<Key>
    var currentSlot: int
    var nonActiveSlotExpires: Option<int>

    ghost function View(): Org
      reads this
    {
      Org(cfg, slot1, slot2, currentSlot, nonActiveSlotExpires)
    }

    constructor ()
      ensures View() == BLANK
    {
      cfg, slot1, slot2, currentSlot, nonActiveSlotExpires := None, None, None, 0, None;
    }

    function InactiveSlot(): int
      reads this
    {
      if currentSlot == 1 then 2 else 1
    }

    function ActiveKey(): (key: Option<Key>)
      reads this
      ensures key == View().ActiveKey()
    {
      if currentSlot == 1 then slot1 else slot2
    }

    function InactiveKey(): (key: Option<Key>)
      reads this
      ensures key == View().InactiveKey()
    {
      if currentSlot == 1 then slot2 else slot1
    }

    method SetSlot(n: int, key: Option<Key>)
      modifies this
      ensures View() == if n == 1 then old(View()).(slot1 := key) else old(View()).(slot2 := key)
    {
      if n == 1 {
        slot1 := key;
      } else {
        slot2 := key;
      }
    }

    method ClearInactiveSlot()
      modifies this
      ensures View() == old(View()).WithoutInactive()
    {
      if currentSlot == 1 {
        slot2 := None;
      } else {
        slot1 := None;
      }
      nonActiveSlotExpires := None;
    }

    /** The key part of SetTenantIdentityConfiguration: a first key, a rotation, or nothing. */
    method InstallKey(isUpdate: bool, input: ConfigInput, now: int, generated: Option<Key>) returns (ok: bool)
      requires input.rotateKey ==> input.signingKeyOverlapSec.Some?
      requires !isUpdate ==> View() == BLANK
      modifies this
      ensures (View(), ok) == NewKeys(if isUpdate then Some(old(View())) else None, input, now, generated)
    {
      if !isUpdate {
        if generated.None? {
          return false;
        }
        slot1 := generated;
        slot2 := None;
        currentSlot := 1;
        nonActiveSlotExpires := None;
      } else if input.rotateKey {
        ClearInactiveSlot();
        if generated.None? {
          return false;
        }
        SetSlot(InactiveSlot(), generated);
        currentSlot := InactiveSlot();
        nonActiveSlotExpires := Some(now + input.signingKeyOverlapSec.value * NANOS);
      }
      return true;
    }

    /** The last part of SetTenantIdentityConfiguration: build the response and keep it. */
    method StoreConfig(isUpdate: bool, orgId: string, input: ConfigInput, allowed: seq<string>, now: int)
      returns (resp: ConfigResponse)
      requires allowed == if input.allowedAudiences == [] then [input.defaultAudience] else input.allowedAudiences
      modifies this
      ensures
        var configured := Configured(old(View()), orgId, input, now);
        resp == if isUpdate then configured else configured.(createdAt := Some(now))
      ensures View() == old(View()).(cfg := Some(resp))
    {
      var keys := SigningKeysResponse();
      var createdAt := Some(now);
      if isUpdate {
        createdAt := if cfg.Some? then cfg.value.createdAt else None;
      }
      resp := ConfigResponse(
        orgId,
        IdentityConfig(input.enabled, input.issuer, input.defaultAudience, allowed, input.tokenTtlSec,
                       nonActiveSlotExpires.Some?),
        createdAt, Some(now), keys);
      cfg := Some(resp);
    }

    /** SetTenantIdentityConfiguration on the organisation's own state object. */
    method Settle(isUpdate: bool, orgId: string, input: ConfigInput, allowed: seq<string>, now: int,
                  generated: Option<Key>)
      returns (reply: Reply<ConfigResponse>)
      requires input.rotateKey ==> input.signingKeyOverlapSec.Some?
      requires allowed == if input.allowedAudiences == [] then [input.defaultAudience] else input.allowedAudiences
      requires !isUpdate ==> View() == BLANK
      modifies this
      ensures (View(), reply) ==
              Settled(if isUpdate then Some(old(View())) else None, orgId, input, now, generated)
    {
      var keyed := InstallKey(isUpdate, input, now, generated);
      if !keyed {
        return Refused(Internal);
      }
      var resp := StoreConfig(isUpdate, orgId, input, allowed, now);
      return Answer(resp);
    }

    /** tenantIdentitySigningKeysResponse for a state that exists. */
    method SigningKeysResponse() returns (entries: seq<SigningKey>)
      ensures entries == SigningKeys(View())
    {
      entries := [];
      var active := ActiveKey();
      if active.Some? {
        entries := entries + [SigningKey(active.value.kid, true, None)];
      }
      var inactive := InactiveKey();
      if inactive.Some? {
        var entry := SigningKey(inactive.value.kid, false, None);
        if nonActiveSlotExpires.Some? {
          entry := entry.(expireAt := nonActiveSlotExpires);
        }
        entries := entries + [entry];
      }
      assert entries ==
        (if active.Some? then [SigningKey(active.value.kid, true, None)] else []) +
        (if inactive.Some? then [SigningKey(inactive.value.kid, false, nonActiveSlotExpires)] else []);
      entries := SortBy(KidOf, entries);
    }
  }

  class Server {
    var identityState: map<string, IdentityOrgState>

    /** Different organisations never share a state object. */
    ghost predicate Valid()
      reads this
    {
      forall a, b | a in identityState && b in identityState && identityState[a] == identityState[b] :: a == b
    }

    ghost function View(): Orgs
      reads this, identityState.Values
    {
      map id | id in identityState :: identityState[id].View()
    }

    /** Writing through one organisation's object changes that organisation's entry only. */
    twostate lemma OnlyEntryChanged(id: string)
      requires id in identityState && identityState.Keys == old(identityState.Keys) + {id}
      requires forall o | o in old(identityState) && o != id ::
        identityState[o] == old(identityState[o]) && unchanged(identityState[o])
      ensures View() == old(View())[id := identityState[id].View()]
    {
    }

    /** LoadTestIdentity: one organisation with a first key. */
    constructor (seedKey: Key, now: int)
      ensures Valid() && fresh(identityState.Values)
      ensures View() == SeededOrgs(seedKey, now)
    {
      var st := new IdentityOrgState();
      st.slot1 := Some(seedKey);
      st.currentSlot := 1;
      var keys := st.SigningKeysResponse();
      st.cfg := Some(ConfigResponse(SEED_ORG, SEED_CONFIG, Some(now), Some(now), keys));
      identityState := map[SEED_ORG := st];
      new;
      assert View()[SEED_ORG] == SeededOrgs(seedKey, now)[SEED_ORG];
    }

    method GcExpiredNonActiveSigningKey(orgId: string, now: int)
      requires Valid()
      modifies identityState.Values
      ensures Valid()
      ensures View() == GcOrgs(old(View()), orgId, now)
    {
      if orgId !in identityState || identityState[orgId].nonActiveSlotExpires.None? {
        return;
      }
      var st := identityState[orgId];
      if !(now < st.nonActiveSlotExpires.value) {
        st.ClearInactiveSlot();
      }
    }

    /** The argument checks of SetTenantIdentityConfiguration, in the source's order. */
    static method CheckSetRequest(req: Option<SetRequest>)
      returns (refusal: Option<Code>, allowed: seq<string>)
      ensures refusal == Validate(req) == if Acceptable(req) then None else Some(InvalidArgument)
      ensures refusal.None? ==>
        var c := req.value.config.value;
        allowed == if c.allowedAudiences == [] then [c.defaultAudience] else c.allowedAudiences
    {
      ChecksExactly(req);
      refusal, allowed := Some(InvalidArgument), [];
      if req.None? || req.value.organizationId == "" || req.value.config.None? {
        return;
      }
      var input := req.value.config.value;
      if TrimSpace(input.issuer) == "" {
        return;
      }
      if TrimSpace(input.defaultAudience) == "" {
        return;
      }
      if input.tokenTtlSec == 0 {
        return;
      }
      var normalized := NormalizeAllowedAudiences(input.defaultAudience, input.allowedAudiences);
      if normalized.None? {
        return;
      }
      if input.rotateKey && input.signingKeyOverlapSec.None? {
        return;
      } else if !input.rotateKey && input.signingKeyOverlapSec.Some? {
        return;
      } else if input.rotateKey && input.signingKeyOverlapSec.value < input.tokenTtlSec {
        return;
      }
      return None, normalized.value;
    }

    method SetTenantIdentityConfiguration(req: Option<SetRequest>, gcNow: int, now: int, generated: Option<Key>)
      returns (reply: Reply<ConfigResponse>)
      requires Valid()
      modifies this, identityState.Values
      ensures Valid() && fresh(identityState.Values - old(identityState.Values))
      ensures (View(), reply) == SetConfig(old(View()), req, gcNow, now, generated)
      ensures reply == Refused(InvalidArgument) <==> !Acceptable(req)
    {
      var refusal, allowed := CheckSetRequest(req);
      if refusal.Some? {
        return Refused(refusal.value);
      }
      reply := Store(req.value.organizationId, req.value.config.value, allowed, gcNow, now, generated);
    }

    /** The effect of a request that passed its checks. */
    method Store(orgId: string, input: ConfigInput, allowed: seq<string>, gcNow: int, now: int,
                 generated: Option<Key>)
      returns (reply: Reply<ConfigResponse>)
      requires Valid()
      requires input.rotateKey ==> input.signingKeyOverlapSec.Some?
      requires allowed == if input.allowedAudiences == [] then [input.defaultAudience] else input.allowedAudiences
      modifies this, identityState.Values
      ensures Valid() && fresh(identityState.Values - old(identityState.Values))
      ensures (View(), reply) == Stored(old(View()), orgId, input, gcNow, now, generated)
    {
      ghost var orgs := View();
      var st, isUpdate := StateFor(orgId, gcNow);
      label found:
      reply := st.Settle(isUpdate, orgId, input, allowed, now, generated);
      OnlyEntryChanged@found(orgId);
      assert View() == orgs[orgId := st.View()];
    }

    /** Expire the retired key if its time has come, then find or create the state object. */
    method StateFor(orgId: string, gcNow: int) returns (st: IdentityOrgState, isUpdate: bool)
      requires Valid()
      modifies this, identityState.Values
      ensures Valid() && fresh(identityState.Values - old(identityState.Values))
      ensures orgId in identityState && st == identityState[orgId]
      ensures isUpdate == (orgId in old(View()))
      ensures st.View() == if isUpdate then old(View())[orgId].Collected(gcNow) else BLANK
      ensures View() == old(View())[orgId := st.View()]
    {
      GcExpiredNonActiveSigningKey(orgId, gcNow);
      label collected:
      isUpdate := orgId in identityState;
      if isUpdate {
        st := identityState[orgId];
      } else {
        st := new IdentityOrgState();
        identityState := identityState[orgId := st];
      }
      OnlyEntryChanged@collected(orgId);
    }

    static method NormalizeAllowedAudiences(defaultAud: string, allowed: seq<string>)
      returns (result: Option<seq<string>>)
      ensures result.None? <==> allowed != [] && defaultAud !in allowed
      ensures result.Some? ==> result.value == if allowed == [] then [defaultAud] else allowed
    {
      if allowed == [] {
        return Some([defaultAud]);
      }
      for i := 0 to |allowed|
        invariant defaultAud !in allowed[..i]
      {
        if allowed[i] == defaultAud {
          return Some(allowed);
        }
      }
      return None;
    }

    method GetTenantIdentityConfiguration(orgId: Option<string>, now: int) returns (reply: Reply<ConfigResponse>)
      requires Valid()
      modifies identityState.Values
      ensures Valid()
      ensures (View(), reply) == GetConfig(old(View()), orgId, now)
    {
      if orgId.None? || orgId.value == "" {
        return Refused(InvalidArgument);
      }
      GcExpiredNonActiveSigningKey(orgId.value, now);
      if orgId.value !in identityState {
        return Refused(NotFound);
      }
      var st := identityState[orgId.value];
      if st.cfg.None? {
        return Panicked;
      }
      var resp := st.cfg.value;
      var keys := st.SigningKeysResponse();
      resp := resp.(signingKeys := keys);
      resp := resp.(config := resp.config.(rotateKey := st.nonActiveSlotExpires.Some?));
      return Answer(resp);
    }

    method DeleteTenantIdentityConfiguration(orgId: Option<string>) returns (reply: Reply<()>)
      requires Valid()
      modifies this
      ensures Valid()
      ensures (View(), reply) == DeleteConfig(old(View()), orgId)
    {
      if orgId.None? || orgId.value == "" {
        return Refused(InvalidArgument);
      }
      if orgId.value !in identityState {
        return Refused(NotFound);
      }
      identityState := identityState - {orgId.value};
      assert View() == old(View()) - {orgId.value};
      return Answer(());
    }

    method GetJWKS(orgId: Option<string>, kind: JwksKind, now: int) returns (reply: Reply<Jwks>)
      requires Valid()
      modifies identityState.Values
      ensures Valid()
      ensures (View(), reply) == GetJwks(old(View()), orgId, kind, now)
    {
      if orgId.None? || orgId.value == "" {
        return Refused(InvalidArgument);
      }
      GcExpiredNonActiveSigningKey(orgId.value, now);
      if orgId.value !in identityState {
        return Refused(NotFound);
      }
      var st := identityState[orgId.value];
      var use := "sig";
      if kind.Spiffe? {
        use := "jwt-svid";
      }
      var kids: seq<string> := [];
      var active := st.ActiveKey();
      if active.Some? {
        kids := kids + [active.value.kid];
      }
      var inactive := st.InactiveKey();
      if inactive.Some? {
        kids := kids + [inactive.value.kid];
      }
      SortBySorts(IdentityModel.Identity, kids);
      if |kids| == 0 {
        return Refused(Internal);
      }
      kids := SortBy(IdentityModel.Identity, kids);
      return Answer(Jwks(use, kids));
    }

    method ResolveSigningOrg() returns (orgId: string)
      ensures |identityState| != 1 ==> orgId == ""
      ensures |identityState| == 1 ==> orgId in identityState
    {
      if |identityState| == 1 {
        assert identityState.Keys != {};
        orgId :| orgId in identityState;
      } else {
        orgId := "";
      }
    }

    method SignMachineIdentity(audience: Option<seq<string>>, now: int) returns (reply: Reply<Token>)
      requires Valid()
      ensures reply == Sign(View(), audience, now)
    {
      if audience.None? {
        return Refused(InvalidArgument);
      }
      var orgId := ResolveSigningOrg();
      assert View().Keys == identityState.Keys;
      if orgId == "" {
        if |identityState| == 1 {
          OnlyKey(View(), orgId);
        }
        return Refused(Unauthenticated);
      }
      SignIsForTheOnlyOrg(View(), orgId, audience.value, now);
      var st := identityState[orgId];
      var key := st.ActiveKey();
      if key.None? {
        return Refused(Internal);
      }
      var defaultAud := if st.cfg.Some? then st.cfg.value.config.defaultAudience else "";
      var allowed := if st.cfg.Some? then st.cfg.value.config.allowedAudiences else [];
      var audiences := audience.value;
      if |audiences| == 0 {
        audiences := [defaultAud];
      } else {
        for i := 0 to |audiences|
          invariant forall j | 0 <= j < i :: audiences[j] in allowed
        {
          if audiences[i] !in allowed {
            assert exists a :: a in audience.value && a !in allowed;
            return Refused(InvalidArgument);
          }
        }
      }
      var ttl := if st.cfg.Some? then st.cfg.value.config.tokenTtlSec else 0;
      if ttl <= 0 {
        ttl := 600;
      }
      var seconds := now / NANOS;
      return Answer(Token(orgId, key.value.kid, audiences, seconds, seconds + ttl));
    }
  }
}
