/** How long a signed token stays verifiable through GetJWKS. */
module IdentityTokens {
  import opened Outcomes
  import opened Text
  import opened IdentityModel
  import opened IdentityRuns

  /** GetJWKS for `id`, answered at `at`, contains `kid`. */
  ghost predicate Published(orgs: Orgs, id: string, kid: string, at: int) {
    var reply := GetJwks(orgs, Some(id), Oidc, at).1;
    reply.Answer? && kid in reply.value.kids
  }

  /** The instant from which a verifier must reject the token (section 4.1.4 of RFC 7519). */
  function Expiry(tok: Token): int { tok.exp * NANOS }

  /** What an operator must respect for the tokens of `id`: never delete the identity, never lower
      the lifetime, and never start a rotation while the previous overlap window is open. */
  ghost predicate Careful(w: World, e: Event, id: string) {
    match e
    case DeleteEv(other) => other != Some(id)
    case SetEv(req, gcNow, at, generated) =>
      Validate(req).None? && req.value.organizationId == id && id in w.orgs ==>
        var org, c := w.orgs[id], req.value.config.value;
        && (org.cfg.Some? ==> org.TtlSec() <= c.tokenTtlSec)
        && (c.rotateKey ==> org.expires.None? || org.expires.value <= gcNow)
    case _ => true
  }

  ghost predicate CarefulRun(w: World, es: seq<Event>, id: string)
    decreases |es|
  {
    es == [] || (Careful(w, es[0], id) && CarefulRun(Step(w, es[0]), es[1..], id))
  }

  /** Every unexpired token of `id` was signed by a slot that is kept at least until it expires. */
  ghost predicate Covered(w: World, id: string) {
    forall tok | tok in w.tokens && tok.organizationId == id && w.clock < Expiry(tok) ::
      id in w.orgs && Kept(w.orgs[id], tok, w.clock)
  }

  ghost predicate Kept(org: Org, tok: Token, clock: int) {
    || (org.ActiveKey() == Some(Key(tok.kid)) && Expiry(tok) <= clock + org.TtlSec() * NANOS)
    || (org.InactiveKey() == Some(Key(tok.kid)) && org.expires.Some? && Expiry(tok) <= org.expires.value)
  }

  lemma CollectedKeeps(org: Org, h: History, tok: Token, clock: int, at: int)
    requires Refines(org, h) && Kept(org, tok, clock) && clock <= at < Expiry(tok)
    ensures Kept(org.Collected(at), tok, at)
  {
  }

  /** A careful change of configuration keeps every slot a live token needs. */
  lemma SettledKeeps(org: Org, h: History, id: string, c: ConfigInput, gcNow: int, at: int,
                     generated: Option<Key>, tok: Token)
    requires Refines(org, h) && Kept(org, tok, gcNow) && gcNow <= at < Expiry(tok)
    requires c.tokenTtlSec > 0 && (c.rotateKey ==> c.signingKeyOverlapSec.Some?)
    requires c.rotateKey ==> c.signingKeyOverlapSec.value >= c.tokenTtlSec
    requires org.cfg.Some? ==> org.TtlSec() <= c.tokenTtlSec
    requires c.rotateKey ==> org.expires.None? || org.expires.value <= gcNow
    ensures Kept(Settled(Some(org.Collected(gcNow)), id, c, at, generated).0, tok, at)
  {
    CollectedRefines(org, h, gcNow);
    CollectedKeeps(org, h, tok, gcNow, gcNow);
    var before := org.Collected(gcNow);
    var after := Settled(Some(before), id, c, at, generated).0;
    assert after.TtlSec() == c.tokenTtlSec || (c.rotateKey && generated.None?);
    if c.rotateKey {
      assert before.InactiveKey().None?;
      assert before.ActiveKey() == Some(Key(tok.kid));
    }
  }

  lemma StepCovered(w: World, e: Event, id: string)
    requires Consistent(w) && Possible(w, e) && Careful(w, e, id) && Covered(w, id)
    ensures Covered(Step(w, e), id)
  {
    var w' := Step(w, e);
    forall tok | tok in w'.tokens && tok.organizationId == id && w'.clock < Expiry(tok)
      ensures id in w'.orgs && Kept(w'.orgs[id], tok, w'.clock)
    {
      if tok in w.tokens {
        assert id in w.orgs && Kept(w.orgs[id], tok, w.clock);
        OldTokenKept(w, e, id, tok);
      } else {
        SignedTokenKept(w, e, tok);
      }
    }
  }

  lemma SignedTokenKept(w: World, e: Event, tok: Token)
    requires Consistent(w) && Possible(w, e) && e.SignEv?
    requires Sign(w.orgs, e.audience, e.at) == Answer(tok)
    ensures tok.organizationId in w.orgs && Kept(w.orgs[tok.organizationId], tok, e.at)
  {
    SignedBy(w, e.audience, e.at, tok);
  }

  lemma OldTokenKept(w: World, e: Event, id: string, tok: Token)
    requires Consistent(w) && Possible(w, e) && Careful(w, e, id)
    requires id in w.orgs && Kept(w.orgs[id], tok, w.clock)
    requires Step(w, e).clock < Expiry(tok)
    ensures id in Step(w, e).orgs && Kept(Step(w, e).orgs[id], tok, Step(w, e).clock)
  {
    match e
    case SetEv(req, gcNow, at, generated) => SetKeepsToken(w, req, gcNow, at, generated, id, tok);
    case GetEv(read, at) => GcKeepsToken(w, read, at, id, tok, Step(w, e).orgs);
    case JwksEv(read, _, at) => GcKeepsToken(w, read, at, id, tok, Step(w, e).orgs);
    case SignEv(_, at) => LaterKept(w.orgs[id], tok, w.clock, at);
    case DeleteEv(_) =>
  }

  lemma GcKeepsToken(w: World, read: Option<string>, at: int, id: string, tok: Token, orgs: Orgs)
    requires orgs == if read.Some? && read.value != "" then GcOrgs(w.orgs, read.value, at) else w.orgs
    requires Consistent(w) && w.clock <= at < Expiry(tok)
    requires id in w.orgs && Kept(w.orgs[id], tok, w.clock)
    ensures id in orgs && Kept(orgs[id], tok, at)
  {
    CollectedKeeps(w.orgs[id], w.history[id], tok, w.clock, at);
    LaterKept(w.orgs[id], tok, w.clock, at);
  }

  lemma SetKeepsToken(w: World, req: Option<SetRequest>, gcNow: int, at: int, generated: Option<Key>,
                      id: string, tok: Token)
    requires Consistent(w) && w.clock <= gcNow <= at < Expiry(tok)
    requires Careful(w, SetEv(req, gcNow, at, generated), id)
    requires id in w.orgs && Kept(w.orgs[id], tok, w.clock)
    ensures var orgs := SetConfig(w.orgs, req, gcNow, at, generated).0; id in orgs && Kept(orgs[id], tok, at)
  {
    if Validate(req).None? && req.value.organizationId == id {
      StoredKeeps(w.orgs, w.history[id], id, req.value.config.value, gcNow, at, generated, tok, w.clock);
    } else {
      OtherSet(w.orgs, req, gcNow, at, generated, id);
      LaterKept(w.orgs[id], tok, w.clock, at);
    }
  }

  lemma StoredKeeps(orgs: Orgs, h: History, id: string, c: ConfigInput, gcNow: int, at: int, generated: Option<Key>,
                    tok: Token, clock: int)
    requires id in orgs && Refines(orgs[id], h) && Kept(orgs[id], tok, clock) && clock <= gcNow <= at < Expiry(tok)
    requires c.tokenTtlSec > 0 && (c.rotateKey ==> c.signingKeyOverlapSec.Some?)
    requires c.rotateKey ==> c.signingKeyOverlapSec.value >= c.tokenTtlSec
    requires orgs[id].cfg.Some? ==> orgs[id].TtlSec() <= c.tokenTtlSec
    requires c.rotateKey ==> orgs[id].expires.None? || orgs[id].expires.value <= gcNow
    ensures var after := Stored(orgs, id, c, gcNow, at, generated).0; id in after && Kept(after[id], tok, at)
  {
    LaterKept(orgs[id], tok, clock, gcNow);
    SettledKeeps(orgs[id], h, id, c, gcNow, at, generated, tok);
  }

  lemma OtherSet(orgs: Orgs, req: Option<SetRequest>, gcNow: int, at: int, generated: Option<Key>, id: string)
    requires id in orgs && (Validate(req).None? ==> req.value.organizationId != id)
    ensures var after := SetConfig(orgs, req, gcNow, at, generated).0; id in after && after[id] == orgs[id]
  {
  }

  lemma LaterKept(org: Org, tok: Token, clock: int, at: int)
    requires Kept(org, tok, clock) && clock <= at
    ensures Kept(org, tok, at)
  {
  }

  lemma {:induction false} RunCovered(w: World, es: seq<Event>, id: string)
    requires Consistent(w) && Covered(w, id) && ValidRun(w, es) && CarefulRun(w, es, id)
    ensures Consistent(Run(w, es)) && Covered(Run(w, es), id)
    decreases |es|
  {
    if es != [] {
      StepConsistent(w, es[0]);
      StepCovered(w, es[0], id);
      RunCovered(Step(w, es[0]), es[1..], id);
    }
  }

  lemma CoveredIsPublished(w: World, id: string, tok: Token, at: int)
    requires Consistent(w) && Covered(w, id)
    requires tok in w.tokens && tok.organizationId == id && w.clock <= at < Expiry(tok)
    ensures Published(w.orgs, id, tok.kid, at)
  {
    var org := w.orgs[id];
    CollectedKeeps(org, w.history[id], tok, w.clock, at);
    CollectedRefines(org, w.history[id], at);
    ListedKeys(org.Collected(at));
  }

  /** Over every careful run from a fresh server, at every later instant before a signed token
      expires, GetJWKS lists the key that signed it. */
  lemma TokenContinuity(seedKey: Key, now: int, es: seq<Event>, id: string, tok: Token, at: int)
    requires ValidRun(Start(seedKey, now), es) && CarefulRun(Start(seedKey, now), es, id)
    requires tok in Run(Start(seedKey, now), es).tokens && tok.organizationId == id
    requires Run(Start(seedKey, now), es).clock <= at < Expiry(tok)
    ensures Published(Run(Start(seedKey, now), es).orgs, id, tok.kid, at)
  {
    StartConsistent(seedKey, now);
    RunCovered(Start(seedKey, now), es, id);
    CoveredIsPublished(Run(Start(seedKey, now), es), id, tok, at);
  }

  // ----- When exactly tokens stay verifiable -----

  ghost predicate Live(w: World, id: string, tok: Token) {
    tok in w.tokens && tok.organizationId == id && w.clock < Expiry(tok)
  }

  /** Every live token of `id` can be verified at every instant until it expires, if nothing more is requested. */
  ghost predicate AllPublished(w: World, id: string) {
    forall tok, at | Live(w, id, tok) && w.clock <= at < Expiry(tok) :: Published(w.orgs, id, tok.kid, at)
  }

  /** An accepted rotation request for `id`, which is configured. */
  ghost predicate Rotates(w: World, e: Event, id: string) {
    && e.SetEv? && Validate(e.req).None? && e.req.value.organizationId == id && id in w.orgs
    && e.req.value.config.value.rotateKey
  }

  /** What a rotation or a deletion asks of the tokens that are live when it is done; other requests ask nothing. */
  ghost predicate Sparing(w: World, e: Event, id: string) {
    if Rotates(w, e, id) then
      var until := e.at + e.req.value.config.value.signingKeyOverlapSec.value * NANOS;
      forall tok | Live(w, id, tok) && e.at < Expiry(tok) ::
        && w.orgs[id].ActiveKey() == Some(Key(tok.kid))
        && (e.generated.Some? ==> Expiry(tok) <= until)
    else
      e == DeleteEv(Some(id)) ==> forall tok :: !Live(w, id, tok)
  }

  lemma PublishedListed(orgs: Orgs, id: string, kid: string, at: int)
    requires id != ""
    ensures Published(orgs, id, kid, at) <==> id in orgs && kid in Kids(orgs[id].Collected(at))
  {
  }

  /** Which keys are listed after a rotation request, at every later instant. */
  lemma AfterRotation(org: Org, h: History, id: string, c: ConfigInput, gcNow: int, now: int,
                      generated: Option<Key>, kid: string, at: int)
    requires Refines(org, h) && gcNow <= now <= at
    requires c.rotateKey && c.signingKeyOverlapSec.Some?
    requires generated.Some? ==> generated.value.kid != kid
    ensures
      var after := Settled(Some(org.Collected(gcNow)), id, c, now, generated).0;
      var until := now + c.signingKeyOverlapSec.value * NANOS;
      kid in Kids(after.Collected(at)) <==> org.ActiveKey() == Some(Key(kid)) && (generated.Some? ==> at < until)
  {
    var after := Settled(Some(org.Collected(gcNow)), id, c, now, generated).0.Collected(at);
    if after.ActiveKey().Some? {
      ListedKeys(after);
    } else {
      assert Kids(after) == [];
    }
  }

  /** One key after a rotation: which of the live tokens can still be verified, and until when. */
  lemma RotatedToken(w: World, e: Event, id: string, tok: Token, at: int)
    requires Consistent(w) && Possible(w, e) && Rotates(w, e, id) && tok in w.tokens && e.at <= at
    ensures
      var until := e.at + e.req.value.config.value.signingKeyOverlapSec.value * NANOS;
      Published(Step(w, e).orgs, id, tok.kid, at) <==>
      w.orgs[id].ActiveKey() == Some(Key(tok.kid)) && (e.generated.Some? ==> at < until)
  {
    AfterRotation(w.orgs[id], w.history[id], id, e.req.value.config.value, e.gcNow, e.at, e.generated, tok.kid, at);
    PublishedListed(Step(w, e).orgs, id, tok.kid, at);
  }

  /** Once the overlap window of a rotation has passed, the replaced key is no longer published. */
  lemma RotationUnpublishes(orgs: Orgs, id: string, h: History, c: ConfigInput, now: int, next: Key, at: int)
    requires id in orgs && id != "" && Refines(orgs[id], h) && h.keys != []
    requires forall k | k in h.keys :: k.kid != next.kid
    requires c.rotateKey && c.signingKeyOverlapSec.Some? && now + c.signingKeyOverlapSec.value * NANOS <= at
    ensures !Published(Stored(orgs, id, c, now, now, Some(next)).0, id, Last(h.keys).kid, at)
  {
    var after := Stored(orgs, id, c, now, now, Some(next)).0;
    AfterRotation(orgs[id], h, id, c, now, now, Some(next), Last(h.keys).kid, at);
    PublishedListed(after, id, Last(h.keys).kid, at);
  }

  /** After a rotation every live token stays verifiable until it expires exactly when none of them was signed by
      another key than the active one and, if that key is really replaced, the window outlasts them all. The server
      itself compares the window with the requested lifetime only. */
  lemma RotationKeepsTokens(w: World, e: Event, id: string)
    requires Consistent(w) && Possible(w, e) && Rotates(w, e, id)
    ensures AllPublished(Step(w, e), id) <==> Sparing(w, e, id)
  {
    var w' := Step(w, e);
    var until := e.at + e.req.value.config.value.signingKeyOverlapSec.value * NANOS;
    if AllPublished(w', id) {
      forall tok | Live(w, id, tok) && e.at < Expiry(tok)
        ensures w.orgs[id].ActiveKey() == Some(Key(tok.kid)) && (e.generated.Some? ==> Expiry(tok) <= until)
      {
        assert Live(w', id, tok) && Published(w'.orgs, id, tok.kid, e.at);
        RotatedToken(w, e, id, tok, e.at);
        if Expiry(tok) > until {
          assert Published(w'.orgs, id, tok.kid, until);
          RotatedToken(w, e, id, tok, until);
        }
      }
    }
    if Sparing(w, e, id) {
      forall tok, at | Live(w', id, tok) && w'.clock <= at < Expiry(tok) ensures Published(w'.orgs, id, tok.kid, at) {
        assert Live(w, id, tok);
        RotatedToken(w, e, id, tok, at);
      }
    }
  }

  /** A key listed for `id` now is listed later, until the recorded expiry if it is the retired one. */
  lemma StillListed(org: Org, org': Org, kid: string, gcNow: int, at: int)
    requires gcNow <= at && kid in Kids(org.Collected(at))
    requires org' == org.Collected(gcNow).(cfg := org'.cfg) || org' == org
    ensures kid in Kids(org'.Collected(at))
  {
  }

  /** Requests that neither rotate a key of `id` nor delete it keep what is published for it. */
  lemma OthersKeep(w: World, e: Event, id: string, kid: string, at: int)
    requires Consistent(w) && Possible(w, e) && !Rotates(w, e, id) && e != DeleteEv(Some(id))
    requires Step(w, e).clock <= at && Published(w.orgs, id, kid, at)
    ensures Published(Step(w, e).orgs, id, kid, at)
  {
    PublishedListed(w.orgs, id, kid, at);
    PublishedListed(Step(w, e).orgs, id, kid, at);
    OthersChange(w, e, id);
    StillListed(w.orgs[id], Step(w, e).orgs[id], kid, ReadingOf(w, e), at);
  }

  /** When a request looks for expired keys. */
  function ReadingOf(w: World, e: Event): int {
    match e
    case SetEv(_, gcNow, _, _) => gcNow
    case DeleteEv(_) => w.clock
    case _ => e.at
  }

  lemma OthersChange(w: World, e: Event, id: string)
    requires Consistent(w) && Possible(w, e) && !Rotates(w, e, id) && e != DeleteEv(Some(id)) && id in w.orgs
    ensures id in Step(w, e).orgs && ReadingOf(w, e) <= Step(w, e).clock
    ensures
      var org, org' := w.orgs[id], Step(w, e).orgs[id];
      org' == org || org' == org.Collected(ReadingOf(w, e)).(cfg := org'.cfg)
  {
    match e
    case SetEv(req, gcNow, at, generated) => SetChanges(w.orgs, req, gcNow, at, generated, id);
    case DeleteEv(other) => DeleteChanges(w.orgs, other, id);
    case GetEv(read, at) => ReadChanges(w.orgs, read, at, id);
    case JwksEv(read, kind, at) => ReadChanges(w.orgs, read, at, id);
    case SignEv(_, _) =>
  }

  lemma ReadChanges(orgs: Orgs, read: Option<string>, at: int, id: string)
    requires id in orgs
    ensures
      var after := GetConfig(orgs, read, at).0;
      id in after && (after[id] == orgs[id] || after[id] == orgs[id].Collected(at).(cfg := after[id].cfg))
    ensures forall kind :: GetJwks(orgs, read, kind, at).0 == GetConfig(orgs, read, at).0
  {
  }

  lemma DeleteChanges(orgs: Orgs, other: Option<string>, id: string)
    requires id in orgs && other != Some(id)
    ensures id in DeleteConfig(orgs, other).0 && DeleteConfig(orgs, other).0[id] == orgs[id]
  {
  }

  lemma SetChanges(orgs: Orgs, req: Option<SetRequest>, gcNow: int, at: int, generated: Option<Key>, id: string)
    requires id in orgs
    requires Validate(req).None? && req.value.organizationId == id ==> !req.value.config.value.rotateKey
    ensures
      var after := SetConfig(orgs, req, gcNow, at, generated).0;
      && id in after
      && (after[id] == orgs[id] || after[id] == orgs[id].Collected(gcNow).(cfg := after[id].cfg))
  {
  }

  lemma ActiveListed(org: Org, kid: string, at: int)
    requires org.ActiveKey() == Some(Key(kid))
    ensures kid in Kids(org.Collected(at))
  {
    ListedKeys(org.Collected(at));
  }

  /** A token that has just been signed is verifiable until it expires. */
  lemma SignedPublished(w: World, e: Event, tok: Token, at: int)
    requires Consistent(w) && Possible(w, e) && e.SignEv? && e.at <= at
    requires Sign(w.orgs, e.audience, e.at) == Answer(tok)
    ensures Published(w.orgs, tok.organizationId, tok.kid, at)
  {
    SignedBy(w, e.audience, e.at, tok);
    ActiveListed(w.orgs[tok.organizationId], tok.kid, at);
    PublishedListed(w.orgs, tok.organizationId, tok.kid, at);
  }

  lemma DeletionKeepsTokens(w: World, id: string)
    requires Consistent(w) && id != ""
    ensures AllPublished(Step(w, DeleteEv(Some(id))), id) <==> forall tok :: !Live(w, id, tok)
  {
    var w' := Step(w, DeleteEv(Some(id)));
    if tok :| Live(w, id, tok) {
      assert Live(w', id, tok) && !Published(w'.orgs, id, tok.kid, w.clock);
    } else {
      forall tok ensures !Live(w', id, tok) {
        assert !Live(w, id, tok);
      }
    }
  }

  /** One request keeps every live token verifiable exactly when it spares them. */
  lemma StepKeepsExactly(w: World, e: Event, id: string)
    requires Consistent(w) && Possible(w, e) && id != "" && AllPublished(w, id)
    ensures AllPublished(Step(w, e), id) <==> Sparing(w, e, id)
  {
    if Rotates(w, e, id) {
      RotationKeepsTokens(w, e, id);
    } else if e == DeleteEv(Some(id)) {
      DeletionKeepsTokens(w, id);
    } else {
      var w' := Step(w, e);
      forall tok, at | Live(w', id, tok) && w'.clock <= at < Expiry(tok) ensures Published(w'.orgs, id, tok.kid, at) {
        if tok in w.tokens {
          assert Live(w, id, tok) && Published(w.orgs, id, tok.kid, at);
          OthersKeep(w, e, id, tok.kid, at);
        } else {
          SignedPublished(w, e, tok, at);
        }
      }
    }
  }

  /** Every live token of `id` is verifiable until it expires, before and after every request of the run. */
  ghost predicate AlwaysPublished(w: World, es: seq<Event>, id: string)
    decreases |es|
  {
    AllPublished(w, id) && (es == [] || AlwaysPublished(Step(w, es[0]), es[1..], id))
  }

  ghost predicate SparingRun(w: World, es: seq<Event>, id: string)
    decreases |es|
  {
    es == [] || (Sparing(w, es[0], id) && SparingRun(Step(w, es[0]), es[1..], id))
  }

  /** Over every run, no live token ever loses its key exactly when every rotation and every deletion spares the
      tokens that are live when it is done. */
  lemma {:induction false} ContinuityExactly(w: World, es: seq<Event>, id: string)
    requires Consistent(w) && ValidRun(w, es) && id != "" && AllPublished(w, id)
    ensures AlwaysPublished(w, es, id) <==> SparingRun(w, es, id)
    decreases |es|
  {
    if es != [] {
      StepConsistent(w, es[0]);
      StepKeepsExactly(w, es[0], id);
      if Sparing(w, es[0], id) {
        ContinuityExactly(Step(w, es[0]), es[1..], id);
      }
    }
  }

  /** A fresh server has no tokens to lose. */
  lemma StartPublished(seedKey: Key, now: int, id: string)
    ensures AllPublished(Start(seedKey, now), id)
  {
  }

  // ----- Accepted runs that lose a token -----

  lemma SeedSigns(seedKey: Key)
    ensures
      var w := Start(seedKey, 0);
      Step(w, SignEv(Some([]), 0)) == w.(tokens := {SeedToken(seedKey)})
  {
    var w := Start(seedKey, 0);
    assert |w.orgs| == 1;
    SignIsForTheOnlyOrg(w.orgs, SEED_ORG, [], 0);
  }

  /** What the seed identity signs at the start; it is live for ten minutes. */
  function SeedToken(seedKey: Key): Token {
    Token(SEED_ORG, seedKey.kid, ["openbao"], 0, 600)
  }

  ghost function Signed(seedKey: Key): World {
    Start(seedKey, 0).(tokens := {SeedToken(seedKey)})
  }

  lemma SignedConsistent(seedKey: Key)
    ensures Consistent(Signed(seedKey)) && SEED_ORG in Signed(seedKey).orgs
  {
    StartConsistent(seedKey, 0);
  }

  /** A rotation with a window of one second, at an instant when the seed token is live, takes its key away. */
  lemma ShortWindow(w: World, seedKey: Key, next: Key, now: int)
    requires Consistent(w) && SeedToken(seedKey) in w.tokens && SEED_ORG in w.orgs && next.kid !in w.kids
    requires w.clock <= now && now + 2 * NANOS <= 600 * NANOS
    ensures
      var e := SetEv(Ask(ROTATION), now, now, Some(next));
      Possible(w, e) && !Published(Step(w, e).orgs, SEED_ORG, seedKey.kid, now + 2 * NANOS)
  {
    var e := SetEv(Ask(ROTATION), now, now, Some(next));
    Accepted(ROTATION);
    RotatedToken(w, e, SEED_ORG, SeedToken(seedKey), now + 2 * NANOS);
  }

  /** Lowering the lifetime in the rotation itself: a second after the seed identity has signed, a rotation asks for
      one second of lifetime and of overlap; two seconds after that the token is live and its key is gone. */
  lemma LoweredLifetimeLosesToken(seedKey: Key, next: Key)
    requires seedKey.kid != next.kid
    ensures
      var es := [SignEv(Some([]), 0), SetEv(Ask(ROTATION), NANOS, NANOS, Some(next))];
      var w := Run(Start(seedKey, 0), es);
      && ValidRun(Start(seedKey, 0), es)
      && SeedToken(seedKey) in w.tokens && 3 * NANOS < Expiry(SeedToken(seedKey))
      && !Published(w.orgs, SEED_ORG, seedKey.kid, 3 * NANOS)
  {
    var sign, rotate := SignEv(Some([]), 0), SetEv(Ask(ROTATION), NANOS, NANOS, Some(next));
    SeedSigns(seedKey);
    SignedConsistent(seedKey);
    ShortWindow(Signed(seedKey), seedKey, next, NANOS);
    TwoStepRun(Start(seedKey, 0), sign, rotate);
  }

  lemma PlainStored(orgs: Orgs, id: string, c: ConfigInput, now: int)
    requires id in orgs && !c.rotateKey && c.tokenTtlSec > 0 && orgs[id].InactiveKey().None?
    ensures
      var after := Stored(orgs, id, c, now, now, None).0;
      id in after && after[id].TtlSec() == c.tokenTtlSec && after[id].InactiveKey().None?
  {
  }

  /** Lowering it in a request of its own first: when the rotation comes, its window spans the lifetime that is
      stored, and the token that was signed under the longer one still loses its key. */
  lemma LoweredFirstLosesToken(seedKey: Key, next: Key)
    requires seedKey.kid != next.kid
    ensures
      var es := [SignEv(Some([]), 0), SetEv(Ask(PLAIN), NANOS, NANOS, None)];
      var w := Run(Start(seedKey, 0), es);
      var rotate := SetEv(Ask(ROTATION), 2 * NANOS, 2 * NANOS, Some(next));
      && ValidRun(Start(seedKey, 0), es) && Possible(w, rotate) && SEED_ORG in w.orgs
      && w.orgs[SEED_ORG].TtlSec() <= ROTATION.signingKeyOverlapSec.value && w.orgs[SEED_ORG].InactiveKey().None?
      && SeedToken(seedKey) in w.tokens && 4 * NANOS < Expiry(SeedToken(seedKey))
      && !Published(Step(w, rotate).orgs, SEED_ORG, seedKey.kid, 4 * NANOS)
  {
    LoweredReached(seedKey);
    ShortWindow(Lowered(seedKey), seedKey, next, 2 * NANOS);
  }

  ghost function Lowered(seedKey: Key): World {
    Step(Signed(seedKey), SetEv(Ask(PLAIN), NANOS, NANOS, None))
  }

  lemma LoweredReached(seedKey: Key)
    ensures
      var es := [SignEv(Some([]), 0), SetEv(Ask(PLAIN), NANOS, NANOS, None)];
      ValidRun(Start(seedKey, 0), es) && Run(Start(seedKey, 0), es) == Lowered(seedKey)
    ensures
      var w := Lowered(seedKey);
      && Consistent(w) && SEED_ORG in w.orgs && SeedToken(seedKey) in w.tokens
      && w.clock == NANOS && w.kids == {seedKey.kid}
      && w.orgs[SEED_ORG].TtlSec() == PLAIN.tokenTtlSec && w.orgs[SEED_ORG].InactiveKey().None?
  {
    var lower := SetEv(Ask(PLAIN), NANOS, NANOS, None);
    SeedSigns(seedKey);
    SignedConsistent(seedKey);
    Accepted(PLAIN);
    StepConsistent(Signed(seedKey), lower);
    PlainStored(Signed(seedKey).orgs, SEED_ORG, PLAIN, NANOS);
    TwoStepRun(Start(seedKey, 0), SignEv(Some([]), 0), lower);
  }
}
