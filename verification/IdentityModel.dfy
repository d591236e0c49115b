/** Values and transitions of the per-organisation machine identity state
    (internal/server/forge_server.go). Instants are nanoseconds since the Unix epoch. */
module IdentityModel {
  import opened Outcomes
  import opened Text

  const NANOS: int := 1_000_000_000

  type Uint32 = x: int | 0 <= x < 0x1_0000_0000 witness 0

  /** A key pair; only the identifier derived from the public key is observable. */
  datatype Key = Key(kid: string)

  datatype IdentityConfig = IdentityConfig(
    enabled: bool, issuer: string, defaultAudience: string, allowedAudiences: seq<string>,
    tokenTtlSec: Uint32, rotateKey: bool)

  datatype SigningKey = SigningKey(kid: string, currentSigner: bool, expireAt: Option<int>)

  datatype ConfigResponse = ConfigResponse(
    organizationId: string, config: IdentityConfig,
    createdAt: Option<int>, updatedAt: Option<int>, signingKeys: seq<SigningKey>)

  datatype ConfigInput = ConfigInput(
    enabled: bool, issuer: string, defaultAudience: string, allowedAudiences: seq<string>,
    tokenTtlSec: Uint32, rotateKey: bool, signingKeyOverlapSec: Option<Uint32>)

  datatype SetRequest = SetRequest(organizationId: string, config: Option<ConfigInput>)

  datatype JwksKind = Oidc | Spiffe

  datatype Jwks = Jwks(use: string, kids: seq<string>)

  /** The claims of a signed token that this model follows; exp and iat are whole seconds. */
  datatype Token = Token(organizationId: string, kid: string, audience: seq<string>, iat: int, exp: int)

  /** What one identityOrgState object holds. */
  datatype Org = Org(
    cfg: Option<ConfigResponse>, slot1: Option<Key>, slot2: Option<Key>,
    currentSlot: int, expires: Option<int>)
  {
    function ActiveKey(): Option<Key> {
      if currentSlot == 1 then slot1 else slot2
    }

    function InactiveKey(): Option<Key> {
      if currentSlot == 1 then slot2 else slot1
    }

    function WithoutInactive(): Org {
      if currentSlot == 1 then this.(slot2 := None, expires := None)
      else this.(slot1 := None, expires := None)
    }

    /** The state after the lazy expiry check at `now`. */
    function Collected(now: int): Org {
      if expires.Some? && expires.value <= now then WithoutInactive() else this
    }

    /** A successful rotation to `key` whose overlap window closes at `until`. */
    function Rotated(key: Key, until: int): Org {
      if currentSlot == 1
      then Org(cfg, slot1, Some(key), 2, Some(until))
      else Org(cfg, Some(key), slot2, 1, Some(until))
    }

    function TtlSec(): int {
      if cfg.Some? && cfg.value.config.tokenTtlSec > 0 then cfg.value.config.tokenTtlSec else 600
    }
  }

  type Orgs = map<string, Org>

  const BLANK := Org(None, None, None, 0, None)

  const SEED_ORG := "test-org"

  const SEED_CONFIG := IdentityConfig(
    true, "https://carbide-rest.mock/v2/org/test-org/nico/site/mock-site", "openbao", ["openbao", "vault"], 600, false)

  /** LoadTestIdentity. */
  function SeededOrgs(seedKey: Key, now: int): Orgs {
    var keyed := Org(None, Some(seedKey), None, 1, None);
    map[SEED_ORG := keyed.(cfg := Some(ConfigResponse(SEED_ORG, SEED_CONFIG, Some(now), Some(now), SigningKeys(keyed))))]
  }

  function KidOf(entry: SigningKey): string { entry.kid }

  function SigningKeys(org: Org): seq<SigningKey> {
    var active := if org.ActiveKey().Some? then [SigningKey(org.ActiveKey().value.kid, true, None)] else [];
    var inactive :=
      if org.InactiveKey().Some? then [SigningKey(org.InactiveKey().value.kid, false, org.expires)] else [];
    SortBy(KidOf, active + inactive)
  }

  function Validate(req: Option<SetRequest>): (refusal: Option<Code>) {
    if req.None? || req.value.organizationId == "" || req.value.config.None? then Some(InvalidArgument)
    else
      var c := req.value.config.value;
      if || TrimSpace(c.issuer) == ""
         || TrimSpace(c.defaultAudience) == ""
         || c.tokenTtlSec == 0
         || (c.allowedAudiences != [] && c.defaultAudience !in c.allowedAudiences)
         || c.rotateKey != c.signingKeyOverlapSec.Some?
         || (c.rotateKey && c.signingKeyOverlapSec.value < c.tokenTtlSec)
      then Some(InvalidArgument) else None
  }

  ghost predicate Blank(s: string) {
    forall i | 0 <= i < |s| :: IsSpace(s[i])
  }

  /** What a request must be to be accepted: it names an organisation and brings a configuration; issuer and default
      audience are not blank; the lifetime is positive; a list of audiences contains the default one; an overlap comes
      with a rotation, only with one, and is not shorter than the lifetime. */
  ghost predicate Acceptable(req: Option<SetRequest>) {
    && req.Some? && req.value.organizationId != "" && req.value.config.Some?
    && var c := req.value.config.value;
    && !Blank(c.issuer) && !Blank(c.defaultAudience) && c.tokenTtlSec > 0
    && (c.allowedAudiences == [] || c.defaultAudience in c.allowedAudiences)
    && (c.rotateKey <==> c.signingKeyOverlapSec.Some?)
    && (c.signingKeyOverlapSec.Some? ==> c.signingKeyOverlapSec.value >= c.tokenTtlSec)
  }

  /** The checks refuse exactly the others. */
  lemma ChecksExactly(req: Option<SetRequest>)
    ensures Validate(req) == if Acceptable(req) then None else Some(InvalidArgument)
  {
    if req.Some? && req.value.config.Some? {
      TrimSpaceEmpty(req.value.config.value.issuer);
      TrimSpaceEmpty(req.value.config.value.defaultAudience);
    }
  }

  /** The keys an accepted request leaves behind, or the state a failed key generation leaves. */
  function NewKeys(before: Option<Org>, c: ConfigInput, now: int, generated: Option<Key>): (Org, bool)
    requires c.rotateKey ==> c.signingKeyOverlapSec.Some?
  {
    if before.None? then
      if generated.None? then (BLANK, false)
      else (Org(None, generated, None, 1, None), true)
    else if c.rotateKey then
      if generated.None? then (before.value.WithoutInactive(), false)
      else (before.value.Rotated(generated.value, now + c.signingKeyOverlapSec.value * NANOS), true)
    else (before.value, true)
  }

  function Configured(org: Org, id: string, c: ConfigInput, now: int): ConfigResponse {
    var allowed := if c.allowedAudiences == [] then [c.defaultAudience] else c.allowedAudiences;
    ConfigResponse(
      id,
      IdentityConfig(c.enabled, c.issuer, c.defaultAudience, allowed, c.tokenTtlSec, org.expires.Some?),
      if org.cfg.Some? then org.cfg.value.createdAt else None,
      Some(now),
      SigningKeys(org))
  }

  /** What an accepted request makes of the organisation it names, absent or collected. */
  function Settled(before: Option<Org>, id: string, c: ConfigInput, now: int, generated: Option<Key>)
    : (Org, Reply<ConfigResponse>)
    requires c.rotateKey ==> c.signingKeyOverlapSec.Some?
  {
    var (org, keyed) := NewKeys(before, c, now, generated);
    if !keyed then (org, Refused(Internal))
    else
      var resp := Configured(org, id, c, now);
      var stamped := if before.None? then resp.(createdAt := Some(now)) else resp;
      (org.(cfg := Some(stamped)), Answer(stamped))
  }

  /** SetTenantIdentityConfiguration; `gcNow` and `now` are its two clock readings and
      `generated` the outcome of key generation, consulted only when a key is needed. */
  function SetConfig(orgs: Orgs, req: Option<SetRequest>, gcNow: int, now: int, generated: Option<Key>)
    : (Orgs, Reply<ConfigResponse>)
  {
    var refusal := Validate(req);
    if refusal.Some? then (orgs, Refused(refusal.value))
    else
      Stored(orgs, req.value.organizationId, req.value.config.value, gcNow, now, generated)
  }

  function Stored(orgs: Orgs, id: string, c: ConfigInput, gcNow: int, now: int, generated: Option<Key>)
    : (Orgs, Reply<ConfigResponse>)
    requires c.rotateKey ==> c.signingKeyOverlapSec.Some?
  {
    var before := if id in orgs then Some(orgs[id].Collected(gcNow)) else None;
    var (org, reply) := Settled(before, id, c, now, generated);
    (orgs[id := org], reply)
  }

  function GcOrgs(orgs: Orgs, id: string, now: int): Orgs {
    if id in orgs then orgs[id := orgs[id].Collected(now)] else orgs
  }

  function GetConfig(orgs: Orgs, id: Option<string>, now: int): (Orgs, Reply<ConfigResponse>) {
    if id.None? || id.value == "" then (orgs, Refused(InvalidArgument))
    else
      var after := GcOrgs(orgs, id.value, now);
      if id.value !in after then (after, Refused(NotFound))
      else
        var org := after[id.value];
        if org.cfg.None? then (after, Panicked)
        else
          var cfg := org.cfg.value;
          (after, Answer(cfg.(signingKeys := SigningKeys(org),
                              config := cfg.config.(rotateKey := org.expires.Some?))))
  }

  function DeleteConfig(orgs: Orgs, id: Option<string>): (Orgs, Reply<()>) {
    if id.None? || id.value == "" then (orgs, Refused(InvalidArgument))
    else if id.value !in orgs then (orgs, Refused(NotFound))
    else (orgs - {id.value}, Answer(()))
  }

  function Identity(kid: string): string { kid }

  function Kids(org: Org): seq<string> {
    SortBy(Identity,
           (if org.ActiveKey().Some? then [org.ActiveKey().value.kid] else []) +
           (if org.InactiveKey().Some? then [org.InactiveKey().value.kid] else []))
  }

  lemma SortOne<T>(key: T -> string, a: T)
    ensures SortBy(key, [a] + []) == [a]
  {
    assert [a] + [] == [a] && [a][1..] == [];
    assert SortBy(key, [a]) == InsertBy(key, a, SortBy(key, []));
  }

  lemma SortTwo<T>(key: T -> string, a: T, b: T)
    ensures SortBy(key, [a] + [b]) == if Less(key(b), key(a)) then [b, a] else [a, b]
  {
    var pair := [a] + [b];
    assert pair[0] == a && pair[1..] == [b] + [];
    SortOne(key, b);
    assert SortBy(key, pair) == InsertBy(key, a, [b]);
    assert [b][1..] == [];
    assert [a] + [b] == [a, b] && [b] + InsertBy(key, a, []) == [b, a];
  }

  /** The entries and identifiers listed for an organisation with an active key. */
  lemma ListedKeys(org: Org)
    requires org.ActiveKey().Some?
    ensures
      var active := SigningKey(org.ActiveKey().value.kid, true, None);
      if org.InactiveKey().None? then SigningKeys(org) == [active] && Kids(org) == [active.kid]
      else
        var inactive := SigningKey(org.InactiveKey().value.kid, false, org.expires);
        if Less(inactive.kid, active.kid)
        then SigningKeys(org) == [inactive, active] && Kids(org) == [inactive.kid, active.kid]
        else SigningKeys(org) == [active, inactive] && Kids(org) == [active.kid, inactive.kid]
  {
    var active := SigningKey(org.ActiveKey().value.kid, true, None);
    if org.InactiveKey().None? {
      SortOne(KidOf, active);
      SortOne(Identity, active.kid);
    } else {
      var inactive := SigningKey(org.InactiveKey().value.kid, false, org.expires);
      SortTwo(KidOf, active, inactive);
      SortTwo(Identity, active.kid, inactive.kid);
    }
  }

  function GetJwks(orgs: Orgs, id: Option<string>, kind: JwksKind, now: int): (Orgs, Reply<Jwks>) {
    if id.None? || id.value == "" then (orgs, Refused(InvalidArgument))
    else
      var after := GcOrgs(orgs, id.value, now);
      if id.value !in after then (after, Refused(NotFound))
      else if Kids(after[id.value]) == [] then (after, Refused(Internal))
      else (after, Answer(Jwks(if kind.Spiffe? then "jwt-svid" else "sig", Kids(after[id.value]))))
  }

  /** SignMachineIdentity for the one configured organisation `id`. */
  function SignFor(org: Org, id: string, audience: seq<string>, now: int): Reply<Token> {
    if org.ActiveKey().None? then Refused(Internal)
    else
      var allowed := if org.cfg.Some? then org.cfg.value.config.allowedAudiences else [];
      if exists a | a in audience :: a !in allowed then Refused(InvalidArgument)
      else
        var aud :=
          if audience != [] then audience
          else [if org.cfg.Some? then org.cfg.value.config.defaultAudience else ""];
        Answer(Token(id, org.ActiveKey().value.kid, aud, now / NANOS, now / NANOS + org.TtlSec()))
  }

  ghost function Sign(orgs: Orgs, audience: Option<seq<string>>, now: int): Reply<Token> {
    if audience.None? then Refused(InvalidArgument)
    else if |orgs| != 1 then Refused(Unauthenticated)
    else
      var id :| id in orgs;
      if id == "" then Refused(Unauthenticated) else SignFor(orgs[id], id, audience.value, now)
  }

  /** With one organisation configured, signing is about that organisation. */
  lemma SignIsForTheOnlyOrg(orgs: Orgs, id: string, audience: seq<string>, now: int)
    requires |orgs| == 1 && id in orgs && id != ""
    ensures Sign(orgs, Some(audience), now) == SignFor(orgs[id], id, audience, now)
  {
    OnlyKey(orgs, id);
  }

  lemma OnlyKey(orgs: Orgs, id: string)
    requires |orgs| == 1 && id in orgs
    ensures forall other | other in orgs :: other == id
  {
    var others := orgs.Keys - {id};
    assert |others| == 0;
  }
}
