/**
 * Resolving a request's pins against the installed snapshot, and how long a
 * node may serve one that may have been superseded.
 *
 * Time is the node's own monotonic clock.
 */
module Resolver {
  import opened Wrappers
  import opened Hashing
  import opened Canon
  import opened Events
  import opened Config
  import opened Contents
  import opened Snapshots

  datatype Freshness = Fresh | Stale

  datatype Policy = Policy(budget: nat, failClosed: bool) {
    function FreshnessOf(loadedAt: nat, now: nat): Freshness {
      if now > loadedAt + budget then Stale else Fresh
    }

    predicate Admits(f: Freshness, risk: RiskClass) {
      f.Fresh? || !(failClosed && risk.High?)
    }
  }

  datatype Request = Request(
    path: Str, modelAlias: Option<Str>, keyHash: Hash32, headers: seq<(Str, Str)>,
    modelVersion: Option<Str>, promptVersion: Option<Str>)

  datatype ResolveError = ColdStart | UnknownKey | UnknownSystem(systemId: Str) | StaleConfigFailClosed(generation: u64)

  /** A snapshot and when it was last known to be current, swapped together. */
  datatype Loaded = Loaded(snap: Snapshot, loadedAt: nat, cold: bool)

  // ----- Routes -----

  function Lower(b: byte): byte {
    if 65 <= b <= 90 then b + 32 else b
  }

  predicate EqIgnoreAsciiCase(a: Bytes, b: Bytes) {
    |a| == |b| && forall i :: 0 <= i < |a| ==> Lower(a[i]) == Lower(b[i])
  }

  predicate Matches(m: Matcher, req: Request) {
    match m
    case Any => true
    case Path(p) => req.path == p
    case ModelAlias(a) => req.modelAlias == Some(a)
    case Header(name, value) => exists h :: h in req.headers && EqIgnoreAsciiCase(h.0, name) && h.1 == value
    case All(ms) => forall i :: 0 <= i < |ms| ==> Matches(ms[i], req)
  }

  /** Two different letters are taken for one exactly if they are one upper-case letter
      and its lower-case form. */
  lemma CaseIgnored(b: byte, c: byte)
    requires b != c
    ensures Lower(b) == Lower(c) <==> (65 <= b <= 90 && c as int == b as int + 32) || (65 <= c <= 90 && b as int == c as int + 32)
  {
  }

  lemma AllSplits(a: seq<Matcher>, b: seq<Matcher>, req: Request)
    requires |a| + |b| < 0x1_0000_0000_0000_0000
    ensures Matches(All(a + b), req) <==> Matches(All(a), req) && Matches(All(b), req)
  {
    var s := a + b;
    assert forall i :: 0 <= i < |a| ==> s[i] == a[i];
    assert forall i :: 0 <= i < |b| ==> s[|a| + i] == b[i];
  }

  lemma AllOfOne(m: Matcher, req: Request)
    ensures Matches(All([m]), req) <==> Matches(m, req)
    ensures Matches(All([]), req)
  {
    assert [m][0] == m;
  }

  lemma HeaderFound(a: seq<(Str, Str)>, b: seq<(Str, Str)>, h: (Str, Str), name: Str, value: Str, req: Request)
    ensures Matches(Header(name, value), req.(headers := [])) == false
    ensures Matches(Header(name, value), req.(headers := a + [h] + b)) <==>
            || Matches(Header(name, value), req.(headers := a + b))
            || (EqIgnoreAsciiCase(h.0, name) && h.1 == value)
  {
    hide EqIgnoreAsciiCase;
    assert forall x :: x in a + [h] + b <==> x in a + b || x == h;
  }

  /** What a matcher looks at.  `Any` matches, a path or an alias matches itself and
      nothing else, a header matches if some header of the request has its name,
      whatever the case, and its very value, and a list matches if each of it does. */
  lemma MatcherLaws(req: Request, p: Str, ms: seq<Matcher>, more: seq<Matcher>, a: seq<(Str, Str)>, b: seq<(Str, Str)>, h: (Str, Str), name: Str, value: Str)
    requires 1 + |ms| + |more| < 0x1_0000_0000_0000_0000
    ensures Matches(Any, req)
    ensures Matches(Path(p), req.(path := p)) && (Matches(Path(p), req) ==> req == req.(path := p))
    ensures Matches(ModelAlias(p), req.(modelAlias := Some(p)))
    ensures Matches(ModelAlias(p), req) ==> req == req.(modelAlias := Some(p))
    ensures !Matches(Header(name, value), req.(headers := []))
    ensures Matches(Header(name, value), req.(headers := a + [h] + b)) <==>
            || Matches(Header(name, value), req.(headers := a + b))
            || (EqIgnoreAsciiCase(h.0, name) && h.1 == value)
    ensures Matches(All([]), req)
    ensures Matches(All([Path(p)] + ms + more), req) <==> Matches(Path(p), req) && Matches(All(ms), req) && Matches(All(more), req)
  {
    HeaderFound(a, b, h, name, value, req);
    AllOfOne(Path(p), req);
    AllSplits([Path(p)] + ms, more, req);
    AllSplits([Path(p)], ms, req);
  }

  /** The first route that matches. */
  function FirstMatch(routes: seq<RouteSpec>, req: Request): (r: Option<nat>)
    ensures r.Some? ==> r.value < |routes| && Matches(routes[r.value].matcher, req)
    ensures forall i :: 0 <= i < (if r.Some? then r.value else |routes|) ==> !Matches(routes[i].matcher, req)
  {
    if routes == [] then None
    else if Matches(routes[0].matcher, req) then Some(0)
    else
      match FirstMatch(routes[1..], req)
      case None =>
        assert forall i :: 0 < i < |routes| ==> routes[i] == routes[1..][i - 1];
        None
      case Some(n) =>
        assert forall i :: 0 < i <= n + 1 ==> routes[i] == routes[1..][i - 1];
        Some(n + 1)
  }

  /** The route that serves a request: the first that matches, or the default. */
  function ChosenRoute(s: SystemSpec, req: Request): RouteSpec
    requires s.defaultRoute < |s.routes|
  {
    s.routes[FirstMatch(s.routes, req).GetOr(s.defaultRoute)]
  }

  /** Route `i` serves the request: it matches and none before it does, or none does and
      it is the default. */
  predicate Serves(s: SystemSpec, req: Request, i: nat) {
    && i < |s.routes|
    && (forall j :: 0 <= j < (if Matches(s.routes[i].matcher, req) then i else |s.routes|) ==> !Matches(s.routes[j].matcher, req))
    && (!Matches(s.routes[i].matcher, req) ==> i == s.defaultRoute)
  }

  /** Exactly one route serves a request, and it is the one chosen. */
  lemma ChosenRouteServes(s: SystemSpec, req: Request)
    requires s.defaultRoute < |s.routes|
    ensures exists i: nat :: Serves(s, req, i) && ChosenRoute(s, req) == s.routes[i]
    ensures forall i: nat, j: nat :: Serves(s, req, i) && Serves(s, req, j) ==> i == j
  {
    hide FirstMatch, Matches;
    assert Serves(s, req, FirstMatch(s.routes, req).GetOr(s.defaultRoute));
  }

  /** What the request path relies on: default routes in bounds, systems under
      their own id, keys bound to systems that are there. */
  ghost predicate Servable(snap: Snapshot) {
    && (forall id | id in snap.systems ::
          snap.systems[id].systemId == id && snap.systems[id].defaultRoute < |snap.systems[id].routes|)
    && (forall h | h in snap.keys :: snap.keys[h].systemId in snap.systems)
  }

  /** Nothing is installed that the request path could stumble over. */
  lemma InstalledIsServable(H: HashFn, e: Envelope)
    requires Install(H, e).Ok?
    ensures Servable(Install(H, e).value)
  {
    hide ContentHash, Built, Install, Fit;
    InstalledIff(H, e);
    var snap, c := Install(H, e).value, e.spec.content;
    FitMeans(c);
    forall h | h in snap.keys
      ensures snap.keys[h].systemId in snap.systems
    {
      var k :| k in c.keys && k.keyHash == h;
      var s :| s in c.systems && s.systemId == k.systemId;
    }
  }

  lemma FitMeans(c: Content)
    requires Fit(c)
    ensures forall s | s in c.systems :: s.defaultRoute < |s.routes|
    ensures forall k | k in c.keys :: exists s :: s in c.systems && s.systemId == k.systemId
  {
  }

  function EmptySnapshot(): (r: Snapshot)
    ensures Servable(r)
  {
    Snapshot(0, GENESIS, [], map[], map[])
  }

  // ----- Resolving -----

  const STALE_CONFIG: Str := Ascii("stale_config")
  const PIN_OVERRIDDEN: Str := Ascii("pin_overridden")

  function PinsOf(snap: Snapshot, s: SystemSpec, route: RouteSpec, req: Request, stale: bool): Pins {
    var flags: Flags :=
      (if stale then [STALE_CONFIG] else [])
      + if req.modelVersion.Some? || req.promptVersion.Some? then [PIN_OVERRIDDEN] else [];
    Pins(
      snap.generation, snap.contentHash, s.systemId, s.systemVersion, s.ifuVersion, route.modelId,
      req.modelVersion.GetOr(route.modelVersion), route.promptId, req.promptVersion.GetOr(route.promptVersion),
      s.policyId, s.policyVersion, snap.gatewayVersion, RiskName(s.riskClass), stale, flags)
  }

  function Resolve(cur: Loaded, policy: Policy, req: Request, now: nat): Result<Pins, ResolveError>
    requires Servable(cur.snap)
  {
    if cur.cold then Err(ColdStart)
    else if req.keyHash !in cur.snap.keys then Err(UnknownKey)
    else
      var id := cur.snap.keys[req.keyHash].systemId;
      if id !in cur.snap.systems then Err(UnknownSystem(id))
      else
        var s := cur.snap.systems[id];
        var freshness := policy.FreshnessOf(cur.loadedAt, now);
        if !policy.Admits(freshness, s.riskClass) then Err(StaleConfigFailClosed(cur.snap.generation))
        else
          Ok(PinsOf(cur.snap, s, ChosenRoute(s, req), req, freshness.Stale?))
  }

  /** Who is served and who is not, case by case.  The error for a key bound to a
      missing system never arises. */
  lemma ServedIff(cur: Loaded, policy: Policy, req: Request, now: nat)
    requires Servable(cur.snap)
    ensures Resolve(cur, policy, req, now).Ok? <==>
            && !cur.cold && req.keyHash in cur.snap.keys
            && (now <= cur.loadedAt + policy.budget || !policy.failClosed
                || !cur.snap.systems[cur.snap.keys[req.keyHash].systemId].riskClass.High?)
    ensures Resolve(cur, policy, req, now).Err? ==> !Resolve(cur, policy, req, now).error.UnknownSystem?
  {
  }

  // ----- The feed -----

  datatype PollOutcome = Unreachable | Confirmed | Installed(generation: u64) | Refused(reason: SnapshotError)

  /** Verify and install, or leave everything as it is. */
  function Applied(H: HashFn, cur: Loaded, e: Envelope, now: nat): (Loaded, PollOutcome) {
    match Install(H, e)
    case Err(x) => (cur, Refused(x))
    case Ok(snap) => (Loaded(snap, now, false), Installed(e.generation))
  }

  /** A poll confirms the generation it finds installed, and installs any other. */
  function Polled(H: HashFn, cur: Loaded, fetched: Option<Envelope>, now: nat): (Loaded, PollOutcome) {
    match fetched
    case None => (cur, Unreachable)
    case Some(e) =>
      if e.generation == cur.snap.generation && !cur.cold then (cur.(loadedAt := now), Confirmed)
      else Applied(H, cur, e, now)
  }

  /** The resolver's one cell. */
  class PinResolver {
    var current: Loaded
    const policy: Policy

    constructor (policy: Policy, now: nat)
      ensures current == Loaded(EmptySnapshot(), now, true) && this.policy == policy
    {
      this.policy, current := policy, Loaded(EmptySnapshot(), now, true);
    }

    method Reload(snap: Snapshot, now: nat)
      modifies this
      ensures current == Loaded(snap, now, false)
    {
      current := Loaded(snap, now, false);
    }

    method ConfirmFresh(now: nat)
      modifies this
      ensures current == if old(current).cold then old(current) else old(current).(loadedAt := now)
    {
      if !current.cold {
        current := Loaded(current.snap, now, false);
      }
    }
  }

  class ConfigFeed {
    const resolver: PinResolver

    constructor (resolver: PinResolver)
      ensures this.resolver == resolver
    {
      this.resolver := resolver;
    }

    method Apply(H: HashFn, e: Envelope, now: nat) returns (outcome: PollOutcome)
      modifies resolver
      ensures (resolver.current, outcome) == Applied(H, old(resolver.current), e, now)
    {
      var installed := Install(H, e);
      if installed.Err? {
        return Refused(installed.error);
      }
      resolver.Reload(installed.value, now);
      outcome := Installed(e.generation);
    }

    method PollOnce(H: HashFn, fetched: Option<Envelope>, now: nat) returns (outcome: PollOutcome)
      modifies resolver
      ensures (resolver.current, outcome) == Polled(H, old(resolver.current), fetched, now)
    {
      if fetched.None? {
        return Unreachable;
      }
      if fetched.value.generation == resolver.current.snap.generation && !resolver.current.cold {
        resolver.ConfirmFresh(now);
        return Confirmed;
      }
      outcome := Apply(H, fetched.value, now);
    }
  }
}
