/** A gateway node over time: snapshots arriving, polls failing, requests served. */
module Staleness {
  import opened Wrappers
  import opened Hashing
  import opened Canon
  import opened Events
  import opened Config
  import opened Contents
  import opened Snapshots
  import opened Resolver
  import P = Publishing

  /** A served request: its pins, when, when the node had last installed or
      confirmed its snapshot, and how many envelopes it had installed by then. */
  datatype Served = Served(req: Request, pins: Pins, at: nat, since: nat, installs: nat)

  /** `since` is the last successful install or confirmation; `installed` is every
      envelope installed.  Both are history, as is `served`. */
  datatype Node = Node(cur: Loaded, now: nat, since: Option<nat>, installed: seq<Envelope>, served: seq<Served>)

  datatype Action =
    | Wait(time: nat)
    | Arrive(envelope: Envelope)  // off the bus
    | Poll(fetched: Option<Envelope>)
    | Ask(req: Request)

  function Start(now: nat): (n: Node)
    ensures Servable(n.cur.snap)
  {
    Node(Loaded(EmptySnapshot(), now, true), now, None, [], [])
  }

  lemma PolledServable(H: HashFn, cur: Loaded, fetched: Option<Envelope>, now: nat)
    requires Servable(cur.snap)
    ensures Servable(Polled(H, cur, fetched, now).0.snap)
    ensures fetched.Some? ==> Servable(Applied(H, cur, fetched.value, now).0.snap)
  {
    hide Install, Servable;
    if fetched.Some? && Install(H, fetched.value).Ok? {
      InstalledIsServable(H, fetched.value);
    }
  }

  function After(n: Node, next: (Loaded, PollOutcome), e: Option<Envelope>): Node {
    n.(cur := next.0,
       since := if next.1.Installed? || next.1.Confirmed? then Some(n.now) else n.since,
       installed := if next.1.Installed? && e.Some? then n.installed + [e.value] else n.installed)
  }

  ghost function Step(H: HashFn, policy: Policy, n: Node, a: Action): (n': Node)
    requires Servable(n.cur.snap)
    ensures Servable(n'.cur.snap)
  {
    match a
    case Wait(time) => n.(now := n.now + time)
    case Arrive(e) =>
      PolledServable(H, n.cur, Some(e), n.now);
      After(n, Applied(H, n.cur, e, n.now), Some(e))
    case Poll(fetched) =>
      PolledServable(H, n.cur, fetched, n.now);
      After(n, Polled(H, n.cur, fetched, n.now), fetched)
    case Ask(req) =>
      match Resolve(n.cur, policy, req, n.now)
      case Err(_) => n
      case Ok(pins) => n.(served := n.served + [Served(req, pins, n.now, n.since.GetOr(0), |n.installed|)])
  }

  ghost function Run(H: HashFn, policy: Policy, start: nat, actions: seq<Action>): (n: Node)
    ensures Servable(n.cur.snap)
  {
    if actions == [] then Start(start)
    else Step(H, policy, Run(H, policy, start, actions[..|actions| - 1]), actions[|actions| - 1])
  }

  // ----- What every run keeps -----

  /** The current snapshot is the last installed envelope's, and its clock is the
      last success. */
  ghost predicate Current(H: HashFn, n: Node) {
    if n.cur.cold then n.since == None && n.installed == [] && n.served == []
    else
      && n.since == Some(n.cur.loadedAt) && n.cur.loadedAt <= n.now
      && n.installed != [] && Install(H, n.installed[|n.installed| - 1]) == Ok(n.cur.snap)
  }

  /** The pins of a request served by system `s`: the system's own versions, and
      the model and prompt of the route that serves it, or the caller's. */
  ghost predicate PinsFrom(pins: Pins, s: SystemSpec, req: Request) {
    exists i: nat :: Serves(s, req, i) && PinsBy(pins, s, s.routes[i], req)
  }

  predicate PinsBy(pins: Pins, s: SystemSpec, route: RouteSpec, req: Request) {
    && pins.systemId == s.systemId && pins.systemVersion == s.systemVersion && pins.ifuVersion == s.ifuVersion
    && pins.policyId == s.policyId && pins.policyVersion == s.policyVersion && pins.riskClass == RiskName(s.riskClass)
    && pins.modelId == route.modelId && pins.promptId == route.promptId
    && pins.modelVersion == req.modelVersion.GetOr(route.modelVersion)
    && pins.promptVersion == req.promptVersion.GetOr(route.promptVersion)
    && (Ascii("pin_overridden") in pins.riskFlags <==> req.modelVersion.Some? || req.promptVersion.Some?)
  }

  /** All pins are of one envelope: its generation, hash and gateway version, and
      the system its keys bind the request's key to. */
  ghost predicate OfSnapshot(H: HashFn, x: Served, e: Envelope) {
    && Install(H, e).Ok?
    && x.pins.configGeneration == e.generation && x.pins.configHash == e.contentHash
    && x.pins.gatewayVersion == e.spec.content.gatewayVersion
    && exists k, s ::
         && k in e.spec.content.keys && k.keyHash == x.req.keyHash
         && s in e.spec.content.systems && s.systemId == k.systemId && PinsFrom(x.pins, s, x.req)
  }

  /** Served from the last envelope installed by then. */
  ghost predicate OfLatest(H: HashFn, x: Served, installed: seq<Envelope>) {
    0 < x.installs <= |installed| && OfSnapshot(H, x, installed[x.installs - 1])
  }

  /** Served in time: marked stale exactly past the budget, and past the budget
      never a High-risk system while failing closed. */
  ghost predicate InTime(policy: Policy, x: Served) {
    && x.since <= x.at
    && (x.pins.resolvedStale <==> x.at - x.since > policy.budget)
    && (Ascii("stale_config") in x.pins.riskFlags <==> x.pins.resolvedStale)
    && (policy.failClosed && x.pins.riskClass == RiskName(High) ==> x.at - x.since <= policy.budget)
  }

  ghost predicate NodeSound(H: HashFn, policy: Policy, n: Node) {
    Current(H, n) && forall x | x in n.served :: InTime(policy, x) && OfLatest(H, x, n.installed)
  }

  lemma MoreInstalled(H: HashFn, x: Served, installed: seq<Envelope>, e: Envelope)
    requires OfLatest(H, x, installed)
    ensures OfLatest(H, x, installed + [e])
  {
    hide OfSnapshot;
  }

  lemma FeedKeepsSound(H: HashFn, policy: Policy, n: Node, fetched: Option<Envelope>, poll: bool)
    requires NodeSound(H, policy, n) && (poll || fetched.Some?)
    ensures NodeSound(H, policy, After(n, if poll then Polled(H, n.cur, fetched, n.now) else Applied(H, n.cur, fetched.value, n.now), fetched))
  {
    hide Install, InTime, OfLatest;
    var next := if poll then Polled(H, n.cur, fetched, n.now) else Applied(H, n.cur, fetched.value, n.now);
    var n' := After(n, next, fetched);
    if next.1.Installed? {
      forall x | x in n'.served
        ensures InTime(policy, x) && OfLatest(H, x, n'.installed)
      {
        MoreInstalled(H, x, n.installed, fetched.value);
      }
    }
  }

  lemma ServedRight(H: HashFn, policy: Policy, n: Node, req: Request, e: Envelope)
    requires Servable(n.cur.snap) && Resolve(n.cur, policy, req, n.now).Ok?
    requires n.since == Some(n.cur.loadedAt) && n.cur.loadedAt <= n.now && Install(H, e) == Ok(n.cur.snap)
    ensures var x := Served(req, Resolve(n.cur, policy, req, n.now).value, n.now, n.cur.loadedAt, |n.installed|);
            InTime(policy, x) && OfSnapshot(H, x, e)
  {
    hide Install, ContentHash, FirstMatch, RiskName, Fit, PinsOf, PinsFrom, ChosenRoute;
    InstalledIff(H, e);
    var snap, c := n.cur.snap, e.spec.content;
    var s := snap.systems[snap.keys[req.keyHash].systemId];
    assert snap.gatewayVersion == c.gatewayVersion by { InstalledVersion(H, e); }
    var k :| k in c.keys && k.keyHash == req.keyHash;
    assert s in c.systems && s.systemId == k.systemId;
    OnlyHighIsHigh(s.riskClass);
    PinsOfSystem(snap, s, req, policy.FreshnessOf(n.cur.loadedAt, n.now).Stale?);
  }

  /** The pins made for a request are those of the system and the route serving it. */
  lemma PinsOfSystem(snap: Snapshot, s: SystemSpec, req: Request, stale: bool)
    requires s.defaultRoute < |s.routes|
    ensures
      var pins := PinsOf(snap, s, ChosenRoute(s, req), req, stale);
      && PinsFrom(pins, s, req) && pins.configGeneration == snap.generation && pins.configHash == snap.contentHash
      && pins.gatewayVersion == snap.gatewayVersion && pins.resolvedStale == stale && pins.riskClass == RiskName(s.riskClass)
      && (Ascii("stale_config") in pins.riskFlags <==> stale)
  {
    hide ChosenRoute, Matches, RiskName;
    FlagsTell();
    ChosenRouteServes(s, req);
    var i: nat :| Serves(s, req, i) && ChosenRoute(s, req) == s.routes[i];
    assert PinsBy(PinsOf(snap, s, ChosenRoute(s, req), req, stale), s, s.routes[i], req);
  }

  lemma InstalledVersion(H: HashFn, e: Envelope)
    requires Install(H, e).Ok?
    ensures Install(H, e).value.gatewayVersion == e.spec.content.gatewayVersion
  {
    hide ContentHash, Indexes, IndexesKeys, Fit;
    BuiltIff(H, e.spec);
  }

  lemma OnlyHighIsHigh(c: RiskClass)
    ensures RiskName(c) == RiskName(High) <==> c.High?
  {
    if RiskName(c) == RiskName(High) {
      RiskNamesTell(c, High);
    }
  }

  lemma FlagsTell()
    ensures STALE_CONFIG != PIN_OVERRIDDEN
  {
    assert |STALE_CONFIG| != |PIN_OVERRIDDEN|;
  }

  lemma AskKeepsSound(H: HashFn, policy: Policy, n: Node, req: Request)
    requires NodeSound(H, policy, n) && Servable(n.cur.snap)
    ensures NodeSound(H, policy, Step(H, policy, n, Ask(req)))
  {
    hide Install, InTime, OfSnapshot, Servable, PinsOf;
    if Resolve(n.cur, policy, req, n.now).Ok? {
      ServedRight(H, policy, n, req, n.installed[|n.installed| - 1]);
    }
  }

  lemma StepKeepsSound(H: HashFn, policy: Policy, n: Node, a: Action)
    requires NodeSound(H, policy, n) && Servable(n.cur.snap)
    ensures NodeSound(H, policy, Step(H, policy, n, a))
  {
    hide Servable, InTime, OfSnapshot, Install;
    match a {
      case Wait(_) =>
      case Arrive(e) => FeedKeepsSound(H, policy, n, Some(e), false);
      case Poll(fetched) => FeedKeepsSound(H, policy, n, fetched, true);
      case Ask(req) => AskKeepsSound(H, policy, n, req);
    }
  }

  /** Bounded staleness over timed runs.  Before the first install nothing is
      served; failing closed, a High-risk request is served only within the budget
      of the last install or confirmation; every other answer past it says so; and
      all pins of one answer come from the last snapshot installed, from the system
      its key is bound to and the route that serves it. */
  lemma {:induction false} RunSound(H: HashFn, policy: Policy, start: nat, actions: seq<Action>)
    ensures NodeSound(H, policy, Run(H, policy, start, actions))
  {
    hide NodeSound, Step, Servable;
    if actions == [] {
      StartSound(H, policy, start);
    } else {
      RunSound(H, policy, start, actions[..|actions| - 1]);
      StepKeepsSound(H, policy, Run(H, policy, start, actions[..|actions| - 1]), actions[|actions| - 1]);
    }
  }

  lemma StartSound(H: HashFn, policy: Policy, start: nat)
    ensures NodeSound(H, policy, Start(start))
  {
  }

  /** Which answers of the control plane move the clock: a fetch that names the
      generation already installed, whatever else it holds, or one that installs.
      A fetch that fails or is refused leaves snapshot and clock alone. */
  lemma ClockMovesIff(H: HashFn, cur: Loaded, fetched: Option<Envelope>, now: nat)
    ensures
      var (next, outcome) := Polled(H, cur, fetched, now);
      var named := fetched.Some? && !cur.cold && fetched.value.generation == cur.snap.generation;
      var fit := fetched.Some? && Install(H, fetched.value).Ok?;
      && (outcome.Confirmed? || outcome.Installed? <==> named || fit)
      && (outcome.Confirmed? || outcome.Installed? ==> next.loadedAt == now && !next.cold)
      && (!outcome.Confirmed? && !outcome.Installed? ==> next == cur)
      && (outcome.Confirmed? ==> next.snap == cur.snap)
  {
    hide Install;
  }

  /** An envelope that would be refused still confirms, if it names the installed
      generation: a poll compares generations before it verifies anything. */
  lemma RefusableConfirms(H: HashFn, cur: Loaded, e: Envelope, now: nat)
    requires !cur.cold && e.generation == cur.snap.generation
    ensures Polled(H, cur, Some(e.(spec := e.spec.(generation := if e.generation == 0 then 1 else 0))), now) ==
            (cur.(loadedAt := now), Confirmed)
    ensures Install(H, e.(spec := e.spec.(generation := if e.generation == 0 then 1 else 0))).Err?
  {
  }

  /** Across a fleet: if nodes install only what the control plane sent, then two
      answers anywhere whose pins carry one generation carry one content hash. */
  lemma PinsIdentifyContent(
    H: HashFn, versions: nat -> Str, rows: P.Rows, published: seq<P.Action>,
    policy: Policy, start: nat, actions: seq<Action>, policy': Policy, start': nat, actions': seq<Action>, x: Served, y: Served)
    requires forall e | e in Run(H, policy, start, actions).installed :: e in P.Run(H, versions, rows, published).sent
    requires forall e | e in Run(H, policy', start', actions').installed :: e in P.Run(H, versions, rows, published).sent
    requires x in Run(H, policy, start, actions).served && y in Run(H, policy', start', actions').served
    requires x.pins.configGeneration == y.pins.configGeneration
    ensures x.pins.configHash == y.pins.configHash
  {
    hide Run, P.Run, Install, InTime, Current, Servable;
    RunSound(H, policy, start, actions);
    RunSound(H, policy', start', actions');
    var d := Run(H, policy, start, actions).installed[x.installs - 1];
    var e := Run(H, policy', start', actions').installed[y.installs - 1];
    P.GenerationNamesContent(H, versions, rows, published, d, e);
  }
}
