/** Runs of the identity handlers: the two key slots against the history of generated keys,
    what the read handlers publish, and how long a signed token stays verifiable. */
module IdentityRuns {
  import opened Outcomes
  import opened Text
  import opened IdentityModel

  datatype Event =
    | SetEv(req: Option<SetRequest>, gcNow: int, at: int, generated: Option<Key>)
    | GetEv(id: Option<string>, at: int)
    | DeleteEv(id: Option<string>)
    | JwksEv(id: Option<string>, kind: JwksKind, at: int)
    | SignEv(audience: Option<seq<string>>, at: int)

  /** Every key generated for an organisation since it was entered, oldest first, whether generating the first
      one failed, whether a request for it has been answered since, and until when the last rotation asked to
      overlap, none when its key could not be generated. */
  datatype History = History(keys: seq<Key>, firstFailed: bool, answered: bool, window: Option<int>)

  datatype World = World(
    orgs: Orgs, clock: int, tokens: set<Token>, kids: set<string>, history: map<string, History>)

  ghost function Start(seedKey: Key, now: int): World {
    World(SeededOrgs(seedKey, now), now, {}, {seedKey.kid}, map[SEED_ORG := History([seedKey], false, true, None)])
  }

  /** The clock never runs backwards and a generated key never repeats an identifier. */
  ghost predicate Possible(w: World, e: Event) {
    match e
    case SetEv(_, gcNow, at, generated) =>
      w.clock <= gcNow <= at && (generated.Some? ==> generated.value.kid !in w.kids)
    case DeleteEv(_) => true
    case _ => w.clock <= e.at
  }

  /** How an accepted request extends the organisation's history. */
  ghost function Grown(before: Option<History>, c: ConfigInput, now: int, generated: Option<Key>): History
    requires c.rotateKey ==> c.signingKeyOverlapSec.Some?
  {
    if before.None? then
      History(if generated.Some? then [generated.value] else [], generated.None?, generated.Some?, None)
    else if !c.rotateKey then before.value.(answered := true)
    else if generated.Some? then
      before.value.(keys := before.value.keys + [generated.value], answered := true,
                    window := Some(now + c.signingKeyOverlapSec.value * NANOS))
    else before.value.(window := None)
  }

  ghost function HistoryOf(w: World, id: string): Option<History> {
    if id in w.history then Some(w.history[id]) else None
  }

  ghost function Step(w: World, e: Event): World {
    match e
    case SetEv(req, gcNow, at, generated) =>
      w.(orgs := SetConfig(w.orgs, req, gcNow, at, generated).0,
         clock := at,
         kids := if generated.Some? then w.kids + {generated.value.kid} else w.kids,
         history :=
           if Validate(req).Some? then w.history
           else
             var id := req.value.organizationId;
             w.history[id := Grown(HistoryOf(w, id), req.value.config.value, at, generated)])
    case GetEv(id, at) => w.(orgs := GetConfig(w.orgs, id, at).0, clock := at)
    case DeleteEv(id) =>
      w.(orgs := DeleteConfig(w.orgs, id).0,
         history := if DeleteConfig(w.orgs, id).1.Answer? then w.history - {id.value} else w.history)
    case JwksEv(id, kind, at) => w.(orgs := GetJwks(w.orgs, id, kind, at).0, clock := at)
    case SignEv(audience, at) =>
      var reply := Sign(w.orgs, audience, at);
      w.(clock := at, tokens := if reply.Answer? then w.tokens + {reply.value} else w.tokens)
  }

  ghost predicate ValidRun(w: World, es: seq<Event>)
    decreases |es|
  {
    es == [] || (Possible(w, es[0]) && ValidRun(Step(w, es[0]), es[1..]))
  }

  ghost function Run(w: World, es: seq<Event>): World
    decreases |es|
  {
    if es == [] then w else Run(Step(w, es[0]), es[1..])
  }

  // ----- The two slots refine the history of keys -----

  ghost predicate DistinctKids(keys: seq<Key>) {
    forall i, j | 0 <= i < j < |keys| :: keys[i].kid != keys[j].kid
  }

  /** What the slots of an organisation with this history hold. */
  ghost predicate Refines(org: Org, h: History) {
    var n := |h.keys|;
    && DistinctKids(h.keys)
    && (org.cfg.Some? <==> h.answered) && (!h.answered ==> h.firstFailed)
    && (org.cfg.Some? ==> org.cfg.value.config.tokenTtlSec > 0)
    && (n == 0 ==> h.firstFailed && org == BLANK.(cfg := org.cfg))
    && (n > 0 ==>
      && org.cfg.Some?
      && org.currentSlot == (if n % 2 == 1 then 1 else 2)
      && org.ActiveKey() == Some(h.keys[n - 1])
      && org.InactiveKey() == (if org.expires.Some? && n >= 2 then Some(h.keys[n - 2]) else None)
      && (org.expires.Some? && n == 1 ==> h.firstFailed))
  }

  ghost predicate Consistent(w: World) {
    && w.history.Keys == w.orgs.Keys
    && (forall id | id in w.orgs :: id != "" && Refines(w.orgs[id], w.history[id]))
    && (forall id, k | id in w.history && k in w.history[id].keys :: k.kid in w.kids)
    && (forall tok | tok in w.tokens :: tok.kid in w.kids)
  }

  lemma StartConsistent(seedKey: Key, now: int)
    ensures Consistent(Start(seedKey, now))
  {
  }

  lemma CollectedRefines(org: Org, h: History, now: int)
    requires Refines(org, h)
    ensures Refines(org.Collected(now), h)
  {
  }

  lemma RotatedRefines(org: Org, h: History, key: Key, until: int)
    requires Refines(org, h) && forall k | k in h.keys :: k.kid != key.kid
    requires org.cfg.Some?
    ensures Refines(org.Rotated(key, until), h.(keys := h.keys + [key], answered := true, window := Some(until)))
  {
  }

  /** The organisation an accepted request leaves refines the history that request extends. */
  lemma SettledRefines(before: Option<Org>, h: Option<History>, id: string, c: ConfigInput, now: int,
                       generated: Option<Key>)
    requires c.tokenTtlSec > 0 && (c.rotateKey ==> c.signingKeyOverlapSec.Some?)
    requires before.Some? == h.Some? && (before.Some? ==> Refines(before.value, h.value))
    requires generated.Some? && h.Some? ==> forall k | k in h.value.keys :: k.kid != generated.value.kid
    ensures Refines(Settled(before, id, c, now, generated).0, Grown(h, c, now, generated))
  {
    if before.Some? && c.rotateKey && generated.Some? {
      var cfg := Settled(before, id, c, now, generated).0.cfg;
      var until := now + c.signingKeyOverlapSec.value * NANOS;
      RotatedRefines(before.value.(cfg := cfg), h.value.(answered := true), generated.value, until);
    }
  }

  lemma StepConsistent(w: World, e: Event)
    requires Consistent(w) && Possible(w, e)
    ensures Consistent(Step(w, e))
  {
    match e
    case SetEv(req, gcNow, at, generated) => SetConsistent(w, req, gcNow, at, generated);
    case GetEv(id, at) => ReadConsistent(w, id, at, Step(w, e));
    case JwksEv(id, kind, at) => ReadConsistent(w, id, at, Step(w, e));
    case DeleteEv(id) => DeleteConsistent(w, id);
    case SignEv(_, _) => SignConsistent(w, e);
  }

  lemma SignConsistent(w: World, e: Event)
    requires Consistent(w) && Possible(w, e) && e.SignEv?
    ensures Consistent(Step(w, e))
  {
    if Sign(w.orgs, e.audience, e.at).Answer? {
      SignedBy(w, e.audience, e.at, Sign(w.orgs, e.audience, e.at).value);
    }
  }

  /** A signed token names the newest key of an organisation, and lives for its lifetime. */
  lemma SignedBy(w: World, audience: Option<seq<string>>, at: int, tok: Token)
    requires Consistent(w) && Sign(w.orgs, audience, at) == Answer(tok)
    ensures tok.organizationId in w.orgs && w.history[tok.organizationId].keys != []
    ensures Key(tok.kid) == Last(w.history[tok.organizationId].keys) && tok.kid in w.kids
    ensures w.orgs[tok.organizationId].ActiveKey() == Some(Key(tok.kid))
    ensures tok.exp == at / NANOS + w.orgs[tok.organizationId].TtlSec()
  {
    var id :| id in w.orgs;
    OnlyKey(w.orgs, id);
    SignIsForTheOnlyOrg(w.orgs, id, audience.value, at);
    assert Refines(w.orgs[id], w.history[id]);
    assert Last(w.history[id].keys) in w.history[id].keys;
  }

  lemma DeleteConsistent(w: World, id: Option<string>)
    requires Consistent(w)
    ensures Consistent(Step(w, DeleteEv(id)))
  {
  }

  lemma ReadConsistent(w: World, id: Option<string>, at: int, w': World)
    requires Consistent(w) && w'.history == w.history && w'.kids == w.kids && w'.tokens == w.tokens
    requires w'.orgs == if id.Some? && id.value != "" then GcOrgs(w.orgs, id.value, at) else w.orgs
    ensures Consistent(w')
  {
    if id.Some? && id.value in w.orgs {
      CollectedRefines(w.orgs[id.value], w.history[id.value], at);
    }
  }

  lemma SetConsistent(w: World, req: Option<SetRequest>, gcNow: int, at: int, generated: Option<Key>)
    requires Consistent(w) && Possible(w, SetEv(req, gcNow, at, generated))
    ensures Consistent(Step(w, SetEv(req, gcNow, at, generated)))
  {
    if Validate(req).None? {
      var id, c := req.value.organizationId, req.value.config.value;
      var org := SetConfig(w.orgs, req, gcNow, at, generated).0[id];
      var h := Grown(HistoryOf(w, id), c, at, generated);
      var kids := if generated.Some? then w.kids + {generated.value.kid} else w.kids;
      StoredRefines(w, id, c, gcNow, at, generated);
      EntryConsistent(w, id, org, h, kids);
    }
  }

  lemma StoredRefines(w: World, id: string, c: ConfigInput, gcNow: int, at: int, generated: Option<Key>)
    requires Consistent(w) && (generated.Some? ==> generated.value.kid !in w.kids)
    requires c.tokenTtlSec > 0 && (c.rotateKey ==> c.signingKeyOverlapSec.Some?)
    ensures
      var h := Grown(HistoryOf(w, id), c, at, generated);
      && Refines(Stored(w.orgs, id, c, gcNow, at, generated).0[id], h)
      && forall k | k in h.keys :: k.kid in w.kids || Some(k) == generated
  {
    var before := if id in w.orgs then Some(w.orgs[id].Collected(gcNow)) else None;
    if id in w.orgs {
      CollectedRefines(w.orgs[id], w.history[id], gcNow);
    }
    SettledRefines(before, HistoryOf(w, id), id, c, at, generated);
  }

  lemma EntryConsistent(w: World, id: string, org: Org, h: History, kids: set<string>)
    requires Consistent(w) && id != "" && Refines(org, h)
    requires w.kids <= kids && forall k | k in h.keys :: k.kid in kids
    ensures Consistent(w.(orgs := w.orgs[id := org], history := w.history[id := h], kids := kids))
  {
  }

  /** Over every run the slots hold the newest key and, while the overlap window is recorded,
      the one before it; the slot number is the parity of the number of keys. */
  lemma {:induction false} SlotsRefineHistory(w: World, es: seq<Event>)
    requires Consistent(w) && ValidRun(w, es)
    ensures Consistent(Run(w, es))
    decreases |es|
  {
    if es != [] {
      StepConsistent(w, es[0]);
      SlotsRefineHistory(Step(w, es[0]), es[1..]);
    }
  }

  // ----- What the read handlers publish -----

  /** One or two entries, ascending, with exactly the key `signer` marked as current signer
      and every other one expiring after `at`. */
  ghost predicate SoundListing(listed: seq<SigningKey>, signer: string, at: int) {
    && 1 <= |listed| <= 2
    && (|listed| == 2 ==> Less(listed[0].kid, listed[1].kid))
    && (exists entry :: entry in listed && entry.currentSigner)
    && (forall entry | entry in listed :: entry.currentSigner <==> entry.kid == signer)
    && (forall entry | entry in listed ::
          if entry.currentSigner then entry.expireAt.None?
          else entry.expireAt.Some? && entry.expireAt.value > at)
  }

  lemma ListingIsSound(org: Org, h: History, at: int)
    requires Refines(org, h) && h.keys != [] && (org.expires.Some? ==> org.expires.value > at)
    ensures SoundListing(SigningKeys(org), Last(h.keys).kid, at)
    ensures |Kids(org)| == |SigningKeys(org)|
    ensures forall i | 0 <= i < |Kids(org)| :: Kids(org)[i] == SigningKeys(org)[i].kid
  {
    ListedKeys(org);
    if org.InactiveKey().Some? {
      LessTotal(org.InactiveKey().value.kid, org.ActiveKey().value.kid);
    }
    var active := SigningKey(org.ActiveKey().value.kid, true, None);
    assert active in SigningKeys(org) && active.currentSigner;
  }

  /** Once a first key exists, GetJWKS and GetTenantIdentityConfiguration list the same one or two
      identifiers in ascending order, exactly one of them the current signer and the one that signs,
      and every listed expiry lies ahead. */
  lemma ReadsAgree(w: World, id: string, kind: JwksKind, audience: seq<string>, at: int)
    requires Consistent(w) && id in w.orgs && w.history[id].keys != []
    ensures
      var jwks := GetJwks(w.orgs, Some(id), kind, at).1;
      var config := GetConfig(w.orgs, Some(id), at).1;
      var signed := SignFor(w.orgs[id], id, audience, at);
      && jwks.Answer? && config.Answer?
      && var listed := config.value.signingKeys;
         var signer := Last(w.history[id].keys).kid;
      && SoundListing(listed, signer, at)
      && |jwks.value.kids| == |listed|
      && (forall i | 0 <= i < |listed| :: jwks.value.kids[i] == listed[i].kid)
      && (signed.Answer? ==> signed.value.kid == signer)
  {
    CollectedRefines(w.orgs[id], w.history[id], at);
    ListingIsSound(w.orgs[id].Collected(at), w.history[id], at);
  }

  ghost function Last(keys: seq<Key>): Key
    requires keys != []
  {
    keys[|keys| - 1]
  }

  // ----- A first key generation that fails -----

  /** Reading a configuration panics exactly for an organisation whose first key generation failed and for which
      no request has been answered since. */
  lemma GetPanicsExactly(w: World, id: Option<string>, at: int)
    requires Consistent(w)
    ensures
      GetConfig(w.orgs, id, at).1.Panicked? <==>
      id.Some? && id.value in w.history && w.history[id.value].firstFailed && !w.history[id.value].answered
  {
    if id.Some? && id.value in w.orgs {
      CollectedRefines(w.orgs[id.value], w.history[id.value], at);
    }
  }

  const PLAIN := ConfigInput(true, "issuer", "vault", [], 1, false, None)
  const ROTATION := ConfigInput(true, "issuer", "vault", [], 1, true, Some(1))

  function Ask(c: ConfigInput): Option<SetRequest> {
    Some(SetRequest(SEED_ORG, Some(c)))
  }

  lemma NotBlank(s: string)
    requires s != [] && !IsSpace(s[0])
    ensures TrimSpace(s) != ""
  {
    TrimSpaceEmpty(s);
  }

  lemma Accepted(c: ConfigInput)
    requires c in {PLAIN, ROTATION}
    ensures Validate(Ask(c)).None?
  {
    NotBlank(c.issuer);
    NotBlank(c.defaultAudience);
  }

  ghost function Forgotten(w: World): World {
    w.(orgs := map[], history := map[])
  }

  /** The seed identity deleted, and a first key that could not be generated. */
  ghost function FirstFailed(seedKey: Key): World {
    Forgotten(Start(seedKey, 0)).(orgs := map[SEED_ORG := BLANK], history := map[SEED_ORG := History([], true, false, None)])
  }

  lemma FirstFailedReached(seedKey: Key)
    ensures
      var start := Start(seedKey, 0);
      var es := [DeleteEv(Some(SEED_ORG)), SetEv(Ask(PLAIN), 0, 0, None)];
      ValidRun(start, es) && Run(start, es) == FirstFailed(seedKey)
  {
    var start := Start(seedKey, 0);
    var a, b := DeleteEv(Some(SEED_ORG)), SetEv(Ask(PLAIN), 0, 0, None);
    SeedDeleted(seedKey);
    FirstKeyFails(seedKey);
    TwoStepRun(start, a, b);
  }

  lemma SeedDeleted(seedKey: Key)
    ensures Step(Start(seedKey, 0), DeleteEv(Some(SEED_ORG))) == Forgotten(Start(seedKey, 0))
  {
    var w := Start(seedKey, 0);
    assert w.orgs.Keys == w.history.Keys == {SEED_ORG};
    assert w.orgs - {SEED_ORG} == map[] && w.history - {SEED_ORG} == map[];
  }

  lemma FirstKeyFails(seedKey: Key)
    ensures Step(Forgotten(Start(seedKey, 0)), SetEv(Ask(PLAIN), 0, 0, None)) == FirstFailed(seedKey)
  {
    Accepted(PLAIN);
  }

  lemma TwoStepRun(w: World, a: Event, b: Event)
    ensures Run(w, [a, b]) == Step(Step(w, a), b)
    ensures ValidRun(w, [a, b]) == (Possible(w, a) && Possible(Step(w, a), b))
  {
    assert [a, b][1..] == [b] && [b][1..] == [];
    assert Run(Step(w, a), [b]) == Run(Step(Step(w, a), b), []);
    assert ValidRun(Step(w, a), [b]) == (Possible(Step(w, a), b) && ValidRun(Step(Step(w, a), b), []));
  }

  /** After the identity is deleted and the next first key cannot be generated, reading the configuration panics; and
      a rotation that follows leaves a single key, listed with rotate_key set while its window runs. */
  lemma FirstFailureShows(seedKey: Key, next: Key)
    requires next.kid != seedKey.kid
    ensures
      var es := [DeleteEv(Some(SEED_ORG)), SetEv(Ask(PLAIN), 0, 0, None)];
      var w := Run(Start(seedKey, 0), es);
      var rotate := SetEv(Ask(ROTATION), 0, 0, Some(next));
      var config := GetConfig(Step(w, rotate).orgs, Some(SEED_ORG), 0).1;
      && ValidRun(Start(seedKey, 0), es) && Possible(w, rotate)
      && GetConfig(w.orgs, Some(SEED_ORG), 0).1.Panicked?
      && config.Answer? && config.value.config.rotateKey && |config.value.signingKeys| == 1
  {
    FirstFailedReached(seedKey);
    Accepted(ROTATION);
    BlankRotated(FirstFailed(seedKey).orgs, SEED_ORG, ROTATION, 0, next);
  }

  lemma BlankRotated(orgs: Orgs, id: string, c: ConfigInput, now: int, next: Key)
    requires id in orgs && orgs[id] == BLANK && id != ""
    requires c.rotateKey && c.signingKeyOverlapSec.Some? && c.signingKeyOverlapSec.value > 0
    ensures
      var config := GetConfig(Stored(orgs, id, c, now, now, Some(next)).0, Some(id), now).1;
      config.Answer? && config.value.config.rotateKey && |config.value.signingKeys| == 1
  {
    ListedKeys(Stored(orgs, id, c, now, now, Some(next)).0[id]);
  }
}
