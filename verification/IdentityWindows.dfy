/** What `rotate_key` in a configuration tells: whether the window that the last rotation asked for is open. */
module IdentityWindows {
  import opened Outcomes
  import opened Text
  import opened IdentityModel
  import opened IdentityRuns

  /** A recorded expiry is the end of the window asked for; one that is not recorded has passed, if there was one. */
  ghost predicate Windowed(org: Org, h: History, clock: int) {
    if org.expires.Some? then org.expires == h.window else h.window.Some? ==> h.window.value <= clock
  }

  ghost predicate AllWindowed(w: World) {
    forall id | id in w.orgs && id in w.history :: Windowed(w.orgs[id], w.history[id], w.clock)
  }

  lemma CollectedWindowed(org: Org, h: History, clock: int, at: int)
    requires Windowed(org, h, clock) && clock <= at
    ensures Windowed(org.Collected(at), h, at)
  {
  }

  lemma SettledWindowed(before: Option<Org>, h: Option<History>, id: string, c: ConfigInput, now: int,
                        generated: Option<Key>)
    requires c.rotateKey ==> c.signingKeyOverlapSec.Some?
    requires before.Some? == h.Some? && (before.Some? ==> Windowed(before.value, h.value, now))
    ensures Windowed(Settled(before, id, c, now, generated).0, Grown(h, c, now, generated), now)
  {
  }

  lemma StepWindowed(w: World, e: Event)
    requires Consistent(w) && AllWindowed(w) && Possible(w, e)
    ensures AllWindowed(Step(w, e))
  {
    match e
    case SetEv(req, gcNow, at, generated) => SetWindowed(w, req, gcNow, at, generated);
    case GetEv(id, at) => ReadWindowed(w, id, at, Step(w, e));
    case JwksEv(id, _, at) => ReadWindowed(w, id, at, Step(w, e));
    case DeleteEv(_) =>
    case SignEv(_, _) =>
  }

  lemma ReadWindowed(w: World, id: Option<string>, at: int, w': World)
    requires AllWindowed(w) && w.clock <= at == w'.clock && w'.history == w.history
    requires w'.orgs == if id.Some? && id.value != "" then GcOrgs(w.orgs, id.value, at) else w.orgs
    ensures AllWindowed(w')
  {
    forall other | other in w'.orgs && other in w'.history
      ensures Windowed(w'.orgs[other], w'.history[other], at)
    {
      CollectedWindowed(w.orgs[other], w.history[other], w.clock, at);
    }
  }

  lemma SetWindowed(w: World, req: Option<SetRequest>, gcNow: int, at: int, generated: Option<Key>)
    requires Consistent(w) && AllWindowed(w) && w.clock <= gcNow <= at
    ensures AllWindowed(Step(w, SetEv(req, gcNow, at, generated)))
  {
    var w' := Step(w, SetEv(req, gcNow, at, generated));
    if Validate(req).None? {
      var id, c := req.value.organizationId, req.value.config.value;
      StoredWindowed(w, id, c, gcNow, at, generated);
      EntryWindowed(w, id, Stored(w.orgs, id, c, gcNow, at, generated).0[id], Grown(HistoryOf(w, id), c, at, generated), w');
    }
  }

  lemma StoredWindowed(w: World, id: string, c: ConfigInput, gcNow: int, at: int, generated: Option<Key>)
    requires w.history.Keys == w.orgs.Keys && AllWindowed(w) && w.clock <= gcNow <= at
    requires c.rotateKey ==> c.signingKeyOverlapSec.Some?
    ensures Windowed(Stored(w.orgs, id, c, gcNow, at, generated).0[id], Grown(HistoryOf(w, id), c, at, generated), at)
  {
    if id in w.orgs {
      CollectedWindowed(w.orgs[id], w.history[id], w.clock, gcNow);
      SettledWindowed(Some(w.orgs[id].Collected(gcNow)), HistoryOf(w, id), id, c, at, generated);
    } else {
      SettledWindowed(None, None, id, c, at, generated);
    }
  }

  lemma EntryWindowed(w: World, id: string, org: Org, h: History, w': World)
    requires AllWindowed(w) && w.clock <= w'.clock && Windowed(org, h, w'.clock)
    requires w'.orgs == w.orgs[id := org] && w'.history == w.history[id := h]
    ensures AllWindowed(w')
  {
  }

  lemma {:induction false} RunWindowed(w: World, es: seq<Event>)
    requires Consistent(w) && AllWindowed(w) && ValidRun(w, es)
    ensures Consistent(Run(w, es)) && AllWindowed(Run(w, es))
    decreases |es|
  {
    if es != [] {
      StepConsistent(w, es[0]);
      StepWindowed(w, es[0]);
      RunWindowed(Step(w, es[0]), es[1..]);
    }
  }

  /** At `at`, the window of the last rotation is open. */
  predicate Open(h: History, at: int) {
    h.window.Some? && at < h.window.value
  }

  lemma ExpiryIsWindow(org: Org, h: History, clock: int, at: int)
    requires Windowed(org, h, clock) && clock <= at
    ensures org.Collected(at).expires.Some? <==> Open(h, at)
  {
  }

  lemma ListedCount(org: Org, h: History)
    requires Refines(org, h)
    ensures |SigningKeys(org)| == 2 <==> |h.keys| >= 2 && org.expires.Some?
  {
    if h.keys == [] {
      assert SigningKeys(org) == [];
    } else {
      ListedKeys(org);
    }
  }

  /** Over every run, and at every instant from then on: `rotate_key` is reported exactly while the window of the last
      rotation is open. It agrees with two keys being listed, except that after a failed first generation the window
      can be open with a single key. */
  lemma RotateKeyReported(seedKey: Key, now: int, es: seq<Event>, id: string, at: int)
    requires ValidRun(Start(seedKey, now), es)
    requires
      var w := Run(Start(seedKey, now), es);
      w.clock <= at && id in w.history && w.history[id].answered
    ensures
      var w := Run(Start(seedKey, now), es);
      var config := GetConfig(w.orgs, Some(id), at).1;
      var h := w.history[id];
      && config.Answer?
      && (config.value.config.rotateKey <==> Open(h, at))
      && ((config.value.config.rotateKey <==> |config.value.signingKeys| == 2) <==> !(Open(h, at) && |h.keys| == 1))
      && (Open(h, at) && |h.keys| == 1 ==> h.firstFailed)
  {
    StartConsistent(seedKey, now);
    RunWindowed(Start(seedKey, now), es);
    var w := Run(Start(seedKey, now), es);
    var org, h := w.orgs[id], w.history[id];
    CollectedRefines(org, h, at);
    ExpiryIsWindow(org, h, w.clock, at);
    ListedCount(org.Collected(at), h);
  }
}
