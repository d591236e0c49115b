/** What the identity handlers answer: which requests are accepted, what a configuration read back contains, and what
    a signed token claims. */
module IdentityRequests {
  import opened Outcomes
  import opened Text
  import opened IdentityModel
  import opened IdentityRuns

  // ----- Setting a configuration -----

  function AllowedBy(c: ConfigInput): seq<string> {
    if c.allowedAudiences == [] then [c.defaultAudience] else c.allowedAudiences
  }

  /** The configuration as it was asked for; a missing list of audiences stands for the default one. */
  ghost predicate AsAsked(config: ConfigResponse, id: string, c: ConfigInput) {
    && config.organizationId == id && config.config.enabled == c.enabled && config.config.issuer == c.issuer
    && config.config.defaultAudience == c.defaultAudience && config.config.tokenTtlSec == c.tokenTtlSec
    && config.config.allowedAudiences == AllowedBy(c)
  }

  lemma SettledAnswers(before: Option<Org>, id: string, c: ConfigInput, now: int, generated: Option<Key>)
    requires c.rotateKey ==> c.signingKeyOverlapSec.Some?
    ensures
      var reply := Settled(before, id, c, now, generated).1;
      && (reply.Answer? <==> generated.Some? || (before.Some? && !c.rotateKey))
      && (!reply.Answer? ==> reply == Refused(Internal))
  {
  }

  lemma OthersStay(orgs: Orgs, id: string, org: Org)
    ensures
      id in orgs[id := org]
      && forall other | other != id :: (other in orgs[id := org] <==> other in orgs)
                                       && (other in orgs[id := org] ==> orgs[id := org][other] == orgs[other])
  {
  }

  /** An acceptable request is answered unless it needs a key that cannot be generated; it needs one for a new
      organisation and for a rotation. Other organisations stay as they are. */
  lemma SetAnswers(orgs: Orgs, req: Option<SetRequest>, gcNow: int, now: int, generated: Option<Key>)
    requires Acceptable(req)
    ensures
      var (after, reply) := SetConfig(orgs, req, gcNow, now, generated);
      var id := req.value.organizationId;
      && (reply.Answer? <==> generated.Some? || (id in orgs && !req.value.config.value.rotateKey))
      && (!reply.Answer? ==> reply == Refused(Internal))
      && id in after && forall other | other != id :: (other in after <==> other in orgs)
                                                      && (other in after ==> after[other] == orgs[other])
  {
    ChecksExactly(req);
    var id, c := req.value.organizationId, req.value.config.value;
    var before := if id in orgs then Some(orgs[id].Collected(gcNow)) else None;
    SettledAnswers(before, id, c, now, generated);
    OthersStay(orgs, id, Settled(before, id, c, now, generated).0);
  }

  /** A request that is not acceptable changes nothing. */
  lemma RefusedChangesNothing(orgs: Orgs, req: Option<SetRequest>, gcNow: int, now: int, generated: Option<Key>)
    requires !Acceptable(req)
    ensures SetConfig(orgs, req, gcNow, now, generated) == (orgs, Refused(InvalidArgument))
  {
    ChecksExactly(req);
  }

  lemma SettledMeans(before: Option<Org>, id: string, c: ConfigInput, now: int, generated: Option<Key>)
    requires (c.rotateKey ==> c.signingKeyOverlapSec.Some?) && Settled(before, id, c, now, generated).1.Answer?
    ensures
      var (org, reply) := Settled(before, id, c, now, generated);
      && org.cfg == Some(reply.value) && AsAsked(reply.value, id, c) && reply.value.updatedAt == Some(now)
      && (before.None? ==> reply.value.createdAt == Some(now))
      && (before.Some? && before.value.cfg.Some? ==> reply.value.createdAt == before.value.cfg.value.createdAt)
  {
  }

  lemma CollectedKeepsConfig(org: Org, at: int)
    ensures org.Collected(at).cfg == org.cfg
  {
  }

  /** An answered request is answered with the configuration asked for, updated now. An organisation that is new was
      created now, another one when it was created before. */
  lemma SetMeans(orgs: Orgs, req: Option<SetRequest>, gcNow: int, now: int, generated: Option<Key>)
    requires Acceptable(req) && SetConfig(orgs, req, gcNow, now, generated).1.Answer?
    ensures
      var (after, reply) := SetConfig(orgs, req, gcNow, now, generated);
      var id := req.value.organizationId;
      && id in after && after[id].cfg == Some(reply.value)
      && AsAsked(reply.value, id, req.value.config.value) && reply.value.updatedAt == Some(now)
      && (id !in orgs ==> reply.value.createdAt == Some(now))
      && (id in orgs && orgs[id].cfg.Some? ==> reply.value.createdAt == orgs[id].cfg.value.createdAt)
  {
    ChecksExactly(req);
    var id := req.value.organizationId;
    var before := if id in orgs then Some(orgs[id].Collected(gcNow)) else None;
    if id in orgs {
      CollectedKeepsConfig(orgs[id], gcNow);
    }
    SettledMeans(before, id, req.value.config.value, now, generated);
  }

  lemma ReadBack(orgs: Orgs, id: string, at: int)
    requires id in orgs && id != "" && orgs[id].cfg.Some?
    ensures
      var stored, read := orgs[id].cfg.value, GetConfig(orgs, Some(id), at).1;
      && read.Answer? && read.value.updatedAt == stored.updatedAt && read.value.createdAt == stored.createdAt
      && forall c :: AsAsked(stored, id, c) ==> AsAsked(read.value, id, c)
  {
    CollectedKeepsConfig(orgs[id], at);
  }

  /** A request stores a configuration for the organisation. */
  ghost predicate Stores(w: World, e: Event, id: string) {
    && e.SetEv? && Acceptable(e.req) && e.req.value.organizationId == id
    && SetConfig(w.orgs, e.req, e.gcNow, e.at, e.generated).1.Answer?
  }

  /** Nothing else touches a stored configuration, until the organisation is deleted. */
  lemma StoredStays(w: World, e: Event, id: string)
    requires id in w.orgs && !Stores(w, e, id) && e != DeleteEv(Some(id))
    ensures id in Step(w, e).orgs && Step(w, e).orgs[id].cfg == w.orgs[id].cfg
  {
    match e
    case SetEv(req, gcNow, at, generated) => SetElsewhere(w.orgs, req, gcNow, at, generated, id);
    case GetEv(read, at) =>
    case JwksEv(read, kind, at) =>
    case DeleteEv(other) =>
    case SignEv(_, _) =>
  }

  lemma SetElsewhere(orgs: Orgs, req: Option<SetRequest>, gcNow: int, now: int, generated: Option<Key>, id: string)
    requires id in orgs
    requires Acceptable(req) && req.value.organizationId == id ==> !SetConfig(orgs, req, gcNow, now, generated).1.Answer?
    ensures
      var after := SetConfig(orgs, req, gcNow, now, generated).0;
      id in after && after[id].cfg == orgs[id].cfg
  {
    ChecksExactly(req);
  }

  /** No event of the run stores a configuration for the organisation, or deletes it. */
  ghost predicate LeavesAlone(w: World, es: seq<Event>, id: string)
    decreases |es|
  {
    es == [] || (!Stores(w, es[0], id) && es[0] != DeleteEv(Some(id)) && LeavesAlone(Step(w, es[0]), es[1..], id))
  }

  lemma {:induction false} StoredOverRun(w: World, es: seq<Event>, id: string)
    requires id in w.orgs && LeavesAlone(w, es, id)
    ensures id in Run(w, es).orgs && Run(w, es).orgs[id].cfg == w.orgs[id].cfg
    decreases |es|
  {
    if es != [] {
      StoredStays(w, es[0], id);
      StoredOverRun(Step(w, es[0]), es[1..], id);
    }
  }

  /** What was set is read back: at any later moment, after any run of other events, GetTenantIdentityConfiguration
      answers the configuration of the last request that was answered, with the times it was created and updated. */
  lemma SetThenGet(w: World, e: Event, es: seq<Event>, id: string, at: int)
    requires Stores(w, e, id) && LeavesAlone(Step(w, e), es, id)
    ensures
      var stored := SetConfig(w.orgs, e.req, e.gcNow, e.at, e.generated).1.value;
      var read := GetConfig(Run(Step(w, e), es).orgs, Some(id), at).1;
      && read.Answer? && AsAsked(read.value, id, e.req.value.config.value)
      && read.value.updatedAt == Some(e.at) && read.value.createdAt == stored.createdAt
  {
    SetMeans(w.orgs, e.req, e.gcNow, e.at, e.generated);
    StoredOverRun(Step(w, e), es, id);
    ReadBack(Run(Step(w, e), es).orgs, id, at);
  }

  lemma SettledIsStored(before: Option<Org>, id: string, c: ConfigInput, now: int, generated: Option<Key>)
    requires (c.rotateKey ==> c.signingKeyOverlapSec.Some?) && Settled(before, id, c, now, generated).1.Answer?
    ensures
      var (org, reply) := Settled(before, id, c, now, generated);
      && org.cfg == Some(reply.value) && reply.value.signingKeys == SigningKeys(org)
      && reply.value.config.rotateKey == org.expires.Some?
  {
    var (org, _) := Settled(before, id, c, now, generated);
    SameKeys(org, org.(cfg := None));
    SameKeys(NewKeys(before, c, now, generated).0, org.(cfg := None));
  }

  lemma SameKeys(a: Org, b: Org)
    requires a.(cfg := None) == b.(cfg := None)
    ensures SigningKeys(a) == SigningKeys(b)
  {
    assert a.ActiveKey() == b.ActiveKey() && a.InactiveKey() == b.InactiveKey() && a.expires == b.expires;
  }

  /** A configuration that lists the keys of its organisation is read back as it is while none of them expires. */
  lemma ReadUnchanged(orgs: Orgs, id: string, at: int)
    requires id in orgs && id != "" && orgs[id].cfg.Some? && (orgs[id].expires.Some? ==> at < orgs[id].expires.value)
    requires
      orgs[id].cfg.value.signingKeys == SigningKeys(orgs[id])
      && orgs[id].cfg.value.config.rotateKey == orgs[id].expires.Some?
    ensures GetConfig(orgs, Some(id), at).1 == Answer(orgs[id].cfg.value)
  {
    assert orgs[id].Collected(at) == orgs[id];
  }

  lemma StoredAnswer(orgs: Orgs, id: string, c: ConfigInput, gcNow: int, now: int, generated: Option<Key>)
    requires (c.rotateKey ==> c.signingKeyOverlapSec.Some?) && Stored(orgs, id, c, gcNow, now, generated).1.Answer?
    ensures
      var (after, reply) := Stored(orgs, id, c, gcNow, now, generated);
      && id in after && after[id].cfg == Some(reply.value) && reply.value.signingKeys == SigningKeys(after[id])
      && reply.value.config.rotateKey == after[id].expires.Some?
  {
    SettledIsStored(if id in orgs then Some(orgs[id].Collected(gcNow)) else None, id, c, now, generated);
  }

  /** Reading the configuration back gives exactly the answer to the request that set it, keys and rotation flag
      included, as long as no retired key expires in between. */
  lemma SetAnswersWhatGetReads(w: World, e: Event, id: string, at: int)
    requires Stores(w, e, id)
    requires id in Step(w, e).orgs && (Step(w, e).orgs[id].expires.Some? ==> at < Step(w, e).orgs[id].expires.value)
    ensures GetConfig(Step(w, e).orgs, Some(id), at).1 == SetConfig(w.orgs, e.req, e.gcNow, e.at, e.generated).1
  {
    ChecksExactly(e.req);
    StoredAnswer(w.orgs, id, e.req.value.config.value, e.gcNow, e.at, e.generated);
    ReadUnchanged(Step(w, e).orgs, id, at);
  }

  /** A configuration that is there keeps the time it was created when it is set again. */
  lemma CreatedStays(w: World, e: Event, id: string, before: int, at: int)
    requires Stores(w, e, id) && GetConfig(w.orgs, Some(id), before).1.Answer?
    ensures
      GetConfig(Step(w, e).orgs, Some(id), at).1.Answer?
      && GetConfig(Step(w, e).orgs, Some(id), at).1.value.createdAt == GetConfig(w.orgs, Some(id), before).1.value.createdAt
  {
    SetMeans(w.orgs, e.req, e.gcNow, e.at, e.generated);
    CollectedKeepsConfig(w.orgs[id], before);
    ReadBack(w.orgs, id, before);
    ReadBack(Step(w, e).orgs, id, at);
  }

  // ----- Signing -----

  /** With a single organisation that is configured, a token is signed exactly when it has a key and every audience
      asked for is allowed. It names the organisation and the active key, the audiences asked for or else the default
      one, the whole second it was signed in, and expires after the configured lifetime. */
  lemma SignMeans(orgs: Orgs, id: string, audience: seq<string>, now: int)
    requires |orgs| == 1 && id in orgs && id != "" && orgs[id].cfg.Some? && orgs[id].cfg.value.config.tokenTtlSec > 0
    ensures
      var reply, config := Sign(orgs, Some(audience), now), orgs[id].cfg.value.config;
      && (reply.Answer? <==> orgs[id].ActiveKey().Some? && forall a | a in audience :: a in config.allowedAudiences)
      && (reply == Refused(InvalidArgument) <==>
            orgs[id].ActiveKey().Some? && exists a | a in audience :: a !in config.allowedAudiences)
      && (reply.Answer? ==>
            var token := reply.value;
            && token.organizationId == id && Some(Key(token.kid)) == orgs[id].ActiveKey()
            && token.audience == (if audience == [] then [config.defaultAudience] else audience)
            && token.iat * 1_000_000_000 <= now < (token.iat + 1) * 1_000_000_000 && token.exp == token.iat + config.tokenTtlSec)
  {
    SignIsForTheOnlyOrg(orgs, id, audience, now);
  }

  /** Nothing is signed without a request, or unless exactly one organisation is there. */
  lemma SignRefuses(orgs: Orgs, audience: Option<seq<string>>, now: int)
    ensures audience.None? ==> Sign(orgs, audience, now) == Refused(InvalidArgument)
    ensures audience.Some? && |orgs| != 1 ==> Sign(orgs, audience, now) == Refused(Unauthenticated)
  {
  }

  lemma StoresMeans(w: World, e: Event, id: string)
    requires Stores(w, e, id)
    ensures e.req.value.config.value.tokenTtlSec > 0
    ensures id in Step(w, e).orgs && Step(w, e).orgs[id].cfg.Some?
    ensures AsAsked(Step(w, e).orgs[id].cfg.value, id, e.req.value.config.value)
  {
    SetMeans(w.orgs, e.req, e.gcNow, e.at, e.generated);
  }

  ghost function Asked(w: World, e: Event, id: string): ConfigInput
    requires Stores(w, e, id)
  {
    e.req.value.config.value
  }

  /** What was asked for is what is signed: after an answered request for the only organisation, while it has a key, a
      token for an allowed audience lives for the lifetime asked for, and other audiences are refused. */
  lemma SetThenSign(w: World, e: Event, es: seq<Event>, id: string, audience: seq<string>, at: int)
    requires Stores(w, e, id) && LeavesAlone(Step(w, e), es, id)
    requires var orgs := Run(Step(w, e), es).orgs; orgs.Keys == {id} && orgs[id].ActiveKey().Some?
    ensures
      var c, reply := Asked(w, e, id), Sign(Run(Step(w, e), es).orgs, Some(audience), at);
      && (reply.Answer? <==> forall a | a in audience :: a in AllowedBy(c))
      && (!reply.Answer? ==> reply == Refused(InvalidArgument))
      && (reply.Answer? ==> reply.value.exp - reply.value.iat == c.tokenTtlSec
                            && reply.value.audience == if audience == [] then [c.defaultAudience] else audience)
  {
    StoresMeans(w, e, id);
    StoredOverRun(Step(w, e), es, id);
    SignsAsAsked(Run(Step(w, e), es).orgs, id, Asked(w, e, id), audience, at);
  }

  lemma SignsAsAsked(orgs: Orgs, id: string, c: ConfigInput, audience: seq<string>, at: int)
    requires orgs.Keys == {id} && id != "" && orgs[id].ActiveKey().Some? && c.tokenTtlSec > 0
    requires orgs[id].cfg.Some? && AsAsked(orgs[id].cfg.value, id, c)
    ensures
      var reply := Sign(orgs, Some(audience), at);
      && (reply.Answer? <==> forall a | a in audience :: a in AllowedBy(c))
      && (!reply.Answer? ==> reply == Refused(InvalidArgument))
      && (reply.Answer? ==> reply.value.exp - reply.value.iat == c.tokenTtlSec
                            && reply.value.audience == if audience == [] then [c.defaultAudience] else audience)
  {
    OneOrg(orgs, id);
    SignMeans(orgs, id, audience, at);
  }

  lemma OneOrg(orgs: Orgs, id: string)
    requires orgs.Keys == {id}
    ensures |orgs| == 1
  {
    assert |orgs.Keys| == 1;
  }

  // ----- Published keys -----

  /** GetJWKS answers exactly for an organisation with a key, lists the keys in its slots that have not expired, and
      names the use that goes with the kind asked for. */
  lemma JwksMeans(orgs: Orgs, id: string, kind: JwksKind, now: int)
    requires id != ""
    ensures
      var reply := GetJwks(orgs, Some(id), kind, now).1;
      && (reply == Refused(NotFound) <==> id !in orgs)
      && (id in orgs ==>
            var org := orgs[id].Collected(now);
            && (reply.Answer? <==> org.ActiveKey().Some? || org.InactiveKey().Some?)
            && (reply.Answer? ==>
                  && (kind.Spiffe? ==> reply.value.use == "jwt-svid") && (kind.Oidc? ==> reply.value.use == "sig")
                  && forall kid :: kid in reply.value.kids <==>
                       Some(Key(kid)) == org.ActiveKey() || Some(Key(kid)) == org.InactiveKey()))
  {
    if id in orgs {
      KidsMean(orgs[id].Collected(now));
    }
  }

  lemma KidsMean(org: Org)
    ensures Kids(org) == [] <==> org.ActiveKey().None? && org.InactiveKey().None?
    ensures forall kid :: kid in Kids(org) <==> Some(Key(kid)) == org.ActiveKey() || Some(Key(kid)) == org.InactiveKey()
  {
    var all := (if org.ActiveKey().Some? then [org.ActiveKey().value.kid] else []) +
               (if org.InactiveKey().Some? then [org.InactiveKey().value.kid] else []);
    SortBySorts(Identity, all);
    forall kid ensures kid in SortBy(Identity, all) <==> kid in all {
      assert kid in multiset(SortBy(Identity, all)) <==> kid in multiset(all);
    }
  }
}
