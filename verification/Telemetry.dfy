/**
 * The telemetry fork under every interleaving: producers, the drain, and the
 * shared drop counter, with a sink that fails when it likes.
 */
module Telemetry {
  import opened Wrappers
  import opened Hashing
  import opened Canon
  import opened Events
  import opened Cursors
  import opened Drops

  /** One drop's entry in the table: whose it was, the key it went to, its time, and
      the keys the table held before. */
  datatype Charged = Charged(owner: ChainId, key: ChainId, at: i64, tracked: set<ChainId>)

  /** `counted` are drops added to the total whose window entry is still to come:
      the total and the table are two steps.  `failing` is what is left to record
      of a batch whose publish failed.  From
      `emitted` on, the fields are history. */
  datatype Fork = Fork(
    capacity: nat, open: bool,
    queue: seq<EmittedEvent>, batch: seq<EmittedEvent>, failing: seq<EmittedEvent>,
    total: nat, counted: seq<ChainId>, windows: Windows, inFlight: seq<DropWindow>,
    emitted: seq<EmittedEvent>, published: seq<EmittedEvent>, lost: seq<EmittedEvent>,
    abandoned: seq<EmittedEvent>, charged: seq<Charged>, reported: seq<DropWindow>, forgotten: seq<DropWindow>)

  datatype Action =
    | Emit(event: EmittedEvent)
    | Charge(i: nat, now: i64)
    | Receive
    | Flush(accepted: bool)
    | Tally  // record the next event of a failed batch
    | Take(order: seq<DropWindow>)
    | Report(accepted: bool)  // publish the windows taken, or put them back
    | Crash  // the receiver goes away with what it holds

  ghost function Start(capacity: nat): Fork {
    Fork(capacity, true, [], [], [], 0, [], map[], [], [], [], [], [], [], [], [])
  }

  function Drop(f: Fork, e: EmittedEvent): Fork {
    f.(total := f.total + 1, counted := f.counted + [e.Chain()], lost := f.lost + [e])
  }

  ghost function Step(f: Fork, a: Action): Fork {
    match a
    case Emit(e) =>
      var g := f.(emitted := f.emitted + [e]);
      if f.open && |f.queue| < f.capacity then g.(queue := f.queue + [e]) else Drop(g, e)
    case Charge(i, now) =>
      if i >= |f.counted| then f
      else
        var c := f.counted[i];
        f.(counted := f.counted[..i] + f.counted[i + 1..],
           windows := Recorded(f.windows, c, now),
           charged := f.charged + [Charged(c, KeyFor(f.windows, c), now, f.windows.Keys)])
    case Receive =>
      if !f.open || f.queue == [] then f
      else f.(queue := f.queue[1..], batch := f.batch + [f.queue[0]])
    case Flush(accepted) =>
      if f.failing != [] then f
      else if accepted then f.(published := f.published + f.batch, batch := [])
      else f.(failing := f.batch, batch := [])
    case Tally =>
      if f.failing == [] then f else Drop(f.(failing := f.failing[1..]), f.failing[0])
    case Take(order) =>
      if f.inFlight != [] || !Lists(order, f.windows) then f else f.(inFlight := order, windows := map[])
    case Report(accepted) =>
      if accepted then f.(reported := f.reported + f.inFlight, inFlight := [])
      else f.(windows := Restored(f.windows, f.inFlight), inFlight := [])
    case Crash =>
      f.(open := false, abandoned := f.abandoned + f.queue + f.batch + f.failing, queue := [], batch := [], failing := [],
         forgotten := f.forgotten + f.inFlight, inFlight := [])
  }

  ghost function Run(capacity: nat, actions: seq<Action>): Fork {
    if actions == [] then Start(capacity)
    else Step(Run(capacity, actions[..|actions| - 1]), actions[|actions| - 1])
  }

  // ----- Conservation -----

  /** How many drops were charged to a key. */
  function Charges(charged: seq<Charged>, k: ChainId): nat {
    if charged == [] then 0
    else Charges(charged[..|charged| - 1], k) + if charged[|charged| - 1].key == k then 1 else 0
  }

  /** How often `x` occurs. */
  ghost function Times<T>(s: seq<T>, x: T): nat {
    multiset(s)[x]
  }

  /** Every event is in exactly one place. */
  ghost predicate EventsConserved(f: Fork) {
    forall e ::
      Times(f.emitted, e) ==
      Times(f.published, e) + Times(f.queue, e) + Times(f.batch, e) + Times(f.failing, e) + Times(f.lost, e) + Times(f.abandoned, e)
  }

  /** The total counts every loss, charged or about to be. */
  ghost predicate TotalExact(f: Fork) {
    f.total == |f.lost| == |f.charged| + |f.counted|
  }

  /** Key by key, what was charged is in the table, in flight, reported, or went
      down with the receiver. */
  ghost predicate ChargesConserved(f: Fork) {
    forall k ::
      Charges(f.charged, k) ==
      CountAt(f.windows, k) + CountIn(f.inFlight, k) + CountIn(f.reported, k) + CountIn(f.forgotten, k)
  }

  /** Its own chain, unless the table was full of others. */
  predicate RightKey(x: Charged) {
    x.key == if |x.tracked| >= 4096 && x.owner !in x.tracked then ChainId(Ascii("unknown"), Ascii("unknown")) else x.owner
  }

  /** Every drop is charged once, to the right key. */
  ghost predicate ChargedRight(f: Fork) {
    && (forall x | x in f.charged :: RightKey(x))
    && (forall c :: Times(Chains(f.lost), c) == Times(Owners(f.charged), c) + Times(f.counted, c))
  }

  function Chains(es: seq<EmittedEvent>): (r: seq<ChainId>)
    ensures |r| == |es|
  {
    if es == [] then [] else Chains(es[..|es| - 1]) + [es[|es| - 1].Chain()]
  }

  function Owners(charged: seq<Charged>): (r: seq<ChainId>)
    ensures |r| == |charged|
  {
    if charged == [] then [] else Owners(charged[..|charged| - 1]) + [charged[|charged| - 1].owner]
  }

  ghost predicate Conserved(f: Fork) {
    EventsConserved(f) && TotalExact(f) && ChargesConserved(f) && ChargedRight(f)
  }

  lemma TimesAppend<T>(a: seq<T>, b: seq<T>, x: T)
    ensures Times(a + b, x) == Times(a, x) + Times(b, x)
  {
  }

  lemma TimesOne<T>(y: T, x: T)
    ensures Times([], x) == 0 && Times([y], x) == if x == y then 1 else 0
  {
  }

  lemma TimesWithout<T>(s: seq<T>, i: nat, x: T)
    requires i < |s|
    ensures Times(s, x) == Times(s[..i] + s[i + 1..], x) + Times([s[i]], x)
  {
    hide Times;
    assert s == s[..i] + ([s[i]] + s[i + 1..]);
    TimesAppend(s[..i], [s[i]] + s[i + 1..], x);
    TimesAppend([s[i]], s[i + 1..], x);
    TimesAppend(s[..i], s[i + 1..], x);
  }

  lemma TimesFirst<T>(s: seq<T>, x: T)
    requires s != []
    ensures Times(s, x) == Times([s[0]], x) + Times(s[1..], x)
  {
    hide Times;
    TimesWithout(s, 0, x);
    assert s[..0] + s[1..] == s[1..];
  }

  lemma StepKeepsEvents(f: Fork, a: Action)
    requires EventsConserved(f)
    ensures EventsConserved(Step(f, a))
  {
    hide Recorded, Restored, Lists, Times;
    var g := Step(f, a);
    forall e
      ensures Times(g.emitted, e) ==
              Times(g.published, e) + Times(g.queue, e) + Times(g.batch, e) + Times(g.failing, e) + Times(g.lost, e) + Times(g.abandoned, e)
    {
      TimesOne(e, e);
      match a {
        case Emit(x) =>
          TimesAppend(f.emitted, [x], e);
          TimesAppend(f.queue, [x], e);
          TimesAppend(f.lost, [x], e);
        case Receive =>
          if f.queue != [] {
            TimesFirst(f.queue, e);
            TimesAppend(f.batch, [f.queue[0]], e);
          }
        case Flush(_) => TimesAppend(f.published, f.batch, e);
        case Tally =>
          if f.failing != [] {
            TimesFirst(f.failing, e);
            TimesAppend(f.lost, [f.failing[0]], e);
          }
        case Crash =>
          TimesAppend(f.abandoned, f.queue, e);
          TimesAppend(f.abandoned + f.queue, f.batch, e);
          TimesAppend(f.abandoned + f.queue + f.batch, f.failing, e);
        case _ =>
      }
    }
  }

  lemma StepKeepsTotal(f: Fork, a: Action)
    requires TotalExact(f)
    ensures TotalExact(Step(f, a))
  {
    hide Recorded, Restored, Lists;
  }

  lemma ChainsOneMore(es: seq<EmittedEvent>, e: EmittedEvent)
    ensures Chains(es + [e]) == Chains(es) + [e.Chain()]
  {
    assert (es + [e])[..|es|] == es;
  }

  lemma OwnersOneMore(charged: seq<Charged>, x: Charged)
    ensures Owners(charged + [x]) == Owners(charged) + [x.owner]
  {
    assert (charged + [x])[..|charged|] == charged;
  }

  lemma ChargesOneMore(charged: seq<Charged>, x: Charged, k: ChainId)
    ensures Charges(charged + [x], k) == Charges(charged, k) + if x.key == k then 1 else 0
  {
    assert (charged + [x])[..|charged|] == charged;
  }

  lemma RightKeys(f: Fork, a: Action)
    requires forall x | x in f.charged :: RightKey(x)
    ensures forall x | x in Step(f, a).charged :: RightKey(x)
  {
    hide Recorded, Restored, Lists;
    assert |f.windows| == |f.windows.Keys|;
  }

  lemma StepKeepsRight(f: Fork, a: Action)
    requires ChargedRight(f)
    ensures ChargedRight(Step(f, a))
  {
    hide RightKey, Recorded, Restored, Lists, Chains, Owners, Times, Step;
    RightKeys(f, a);
    forall c
      ensures Times(Chains(Step(f, a).lost), c) == Times(Owners(Step(f, a).charged), c) + Times(Step(f, a).counted, c)
    {
      StepKeepsOwners(f, a, c);
    }
  }

  lemma StepKeepsOwners(f: Fork, a: Action, c: ChainId)
    requires Times(Chains(f.lost), c) == Times(Owners(f.charged), c) + Times(f.counted, c)
    ensures var g := Step(f, a);
            Times(Chains(g.lost), c) == Times(Owners(g.charged), c) + Times(g.counted, c)
  {
    hide Recorded, Restored, Lists, Chains, Owners, Times, KeyFor;
    match a {
      case Emit(e) => DroppedRight(f, e, c);
      case Tally =>
        if f.failing != [] {
          DroppedRight(f, f.failing[0], c);
        }
      case Charge(i, now) =>
        if i < |f.counted| {
          var d := f.counted[i];
          OwnersOneMore(f.charged, Charged(d, KeyFor(f.windows, d), now, f.windows.Keys));
          TimesAppend(Owners(f.charged), [d], c);
          TimesWithout(f.counted, i, c);
        }
      case _ =>
    }
  }

  lemma DroppedRight(f: Fork, e: EmittedEvent, c: ChainId)
    requires Times(Chains(f.lost), c) == Times(Owners(f.charged), c) + Times(f.counted, c)
    ensures Times(Chains(f.lost + [e]), c) == Times(Owners(f.charged), c) + Times(f.counted + [e.Chain()], c)
  {
    hide Chains, Owners, Times;
    ChainsOneMore(f.lost, e);
    TimesAppend(Chains(f.lost), [e.Chain()], c);
    TimesAppend(f.counted, [e.Chain()], c);
  }

  lemma {:induction false} CountAppends(a: seq<DropWindow>, b: seq<DropWindow>, k: ChainId)
    ensures CountIn(a + b, k) == CountIn(a, k) + CountIn(b, k)
  {
    if b == [] {
      assert a + b == a;
    } else {
      var n := |b| - 1;
      assert (a + b)[..|a + b| - 1] == a + b[..n];
      CountAppends(a, b[..n], k);
    }
  }

  lemma StepKeepsCharges(f: Fork, a: Action)
    requires ChargesConserved(f)
    ensures ChargesConserved(Step(f, a))
  {
    hide Restored, Lists, CountIn, Charges;
    forall k
      ensures var g := Step(f, a);
              Charges(g.charged, k) ==
              CountAt(g.windows, k) + CountIn(g.inFlight, k) + CountIn(g.reported, k) + CountIn(g.forgotten, k)
    {
      NothingCounts(k);
      match a {
        case Charge(i, now) =>
          if i < |f.counted| {
            ChargesOneMore(f.charged, Charged(f.counted[i], KeyFor(f.windows, f.counted[i]), now, f.windows.Keys), k);
          }
        case Take(order) =>
          if Lists(order, f.windows) {
            ListingCounts(f.windows, order, k);
          }
        case Report(accepted) =>
          CountAppends(f.reported, f.inFlight, k);
          RestoreCounts(f.windows, f.inFlight, k);
        case Crash => CountAppends(f.forgotten, f.inFlight, k);
        case _ =>
      }
    }
  }

  lemma NothingCounts(k: ChainId)
    ensures CountIn([], k) == 0 && CountAt(map[], k) == 0
  {
  }

  /** Nothing is lost silently.  Whatever the sink does and however producers and
      drain interleave: every emitted event is published, queued, in a batch,
      dropped or went down with the receiver; the total counts the drops; and of
      each key, the drops charged to it are all in its open window, in flight,
      reported or went down with the receiver, each drop charged to its own chain,
      or to the overflow entry exactly if the table was full of other chains. */
  lemma {:induction false} RunConserves(capacity: nat, actions: seq<Action>)
    ensures Conserved(Run(capacity, actions))
  {
    hide EventsConserved, TotalExact, ChargesConserved, ChargedRight, Step;
    if actions == [] {
      StartConserves(capacity);
    } else {
      var f, a := Run(capacity, actions[..|actions| - 1]), actions[|actions| - 1];
      RunConserves(capacity, actions[..|actions| - 1]);
      StepKeepsEvents(f, a);
      StepKeepsTotal(f, a);
      StepKeepsRight(f, a);
      StepKeepsCharges(f, a);
    }
  }

  lemma StartConserves(capacity: nat)
    ensures Conserved(Start(capacity))
  {
  }

  // ----- The queue -----

  /** In every run the queue holds no more than its capacity. */
  lemma {:induction false} QueueBounded(capacity: nat, actions: seq<Action>)
    ensures var f := Run(capacity, actions);
            f.capacity == capacity && |f.queue| <= capacity && (!f.open ==> f.queue == [])
  {
    hide Recorded, Restored, Lists;
    if actions != [] {
      QueueBounded(capacity, actions[..|actions| - 1]);
    }
  }

  /** An event is lost on emission exactly if the queue is full or nobody drains it. */
  lemma LostIff(capacity: nat, actions: seq<Action>, e: EmittedEvent)
    ensures
      var f := Run(capacity, actions);
      var g := Step(f, Emit(e));
      && (g.lost == f.lost + [e] <==> !f.open || |f.queue| == capacity)
      && (g.queue == f.queue + [e] <==> f.open && |f.queue| < capacity)
  {
    hide Run;
    QueueBounded(capacity, actions);
    var f := Run(capacity, actions);
    assert |f.lost + [e]| != |f.lost| && |f.queue + [e]| != |f.queue|;
  }

  // ----- What the published drop events say -----

  /** What the published events of a key add up to. */
  function CarriedIn(reported: seq<DropWindow>, k: ChainId): nat {
    if reported == [] then 0
    else
      CarriedIn(reported[..|reported| - 1], k)
      + if reported[|reported| - 1].chain == k then Carried(reported[|reported| - 1]) else 0
  }

  /** The count column is 32 bits wide and saturates: the events of a key add up
      to its drops exactly if each of its windows fits. */
  lemma {:induction false} CarriedExactIff(reported: seq<DropWindow>, k: ChainId)
    ensures CarriedIn(reported, k) <= CountIn(reported, k)
    ensures CarriedIn(reported, k) == CountIn(reported, k) <==>
            forall w | w in reported && w.chain == k :: w.count <= U32_MAX
  {
    if reported != [] {
      var t, w := reported[..|reported| - 1], reported[|reported| - 1];
      assert reported == t + [w];
      CarriedExactIff(t, k);
    }
  }

  // ----- When the holes are -----

  /** The stamps charged to a key never go back.  A producer reads the clock before
      it takes the lock, so a clock that never goes back is not enough. */
  ghost predicate Steady(charged: seq<Charged>, k: ChainId) {
    forall i, j :: 0 <= i < j < |charged| && charged[i].key == charged[j].key == k ==> charged[i].at <= charged[j].at
  }

  /** Some charge to the key is stamped `t` or later. */
  ghost predicate Reached(charged: seq<Charged>, k: ChainId, t: i64) {
    exists x :: x in charged && x.key == k && t <= x.at
  }

  ghost predicate SpanBy(ws: Windows, charged: seq<Charged>, k: ChainId) {
    k in ws ==> ws[k].first <= ws[k].last && Reached(charged, k, ws[k].last)
  }

  ghost predicate WindowsBy(taken: seq<DropWindow>, charged: seq<Charged>, k: ChainId) {
    forall w | w in taken && w.chain == k :: w.from <= w.to && Reached(charged, k, w.to)
  }

  /** No window of the key ends after the latest charge to it. */
  ghost predicate Bounded(f: Fork, k: ChainId) {
    SpanBy(f.windows, f.charged, k) && WindowsBy(f.inFlight, f.charged, k)
  }

  ghost predicate CoveredAt(f: Fork, k: ChainId, t: i64) {
    Covers(f.windows, k, t) || CoversIn(f.inFlight, k, t) || CoversIn(f.reported, k, t) || CoversIn(f.forgotten, k, t)
  }

  /** Each drop charged to the key happened within a window of it. */
  ghost predicate AllCovered(f: Fork, k: ChainId) {
    forall x | x in f.charged && x.key == k :: CoveredAt(f, k, x.at)
  }

  lemma {:induction false} RestoredBy(ws: Windows, taken: seq<DropWindow>, charged: seq<Charged>, k: ChainId)
    requires SpanBy(ws, charged, k) && WindowsBy(taken, charged, k)
    ensures SpanBy(Restored(ws, taken), charged, k)
  {
    hide Reached;
    if taken != [] {
      var n := |taken| - 1;
      assert taken == taken[..n] + [taken[n]];
      RestoredBy(ws, taken[..n], charged, k);
    }
  }

  lemma ListedBy(ws: Windows, taken: seq<DropWindow>, charged: seq<Charged>, k: ChainId)
    requires SpanBy(ws, charged, k) && Lists(taken, ws)
    ensures WindowsBy(taken, charged, k)
  {
    hide Reached;
  }

  lemma NothingBy(charged: seq<Charged>, k: ChainId)
    ensures SpanBy(map[], charged, k) && WindowsBy([], charged, k)
  {
  }

  lemma ReachedStill(charged: seq<Charged>, x: Charged, k: ChainId, t: i64)
    ensures Reached(charged, k, t) ==> Reached(charged + [x], k, t)
    ensures x.key == k && t <= x.at ==> Reached(charged + [x], k, t)
  {
    assert x in charged + [x];
    if Reached(charged, k, t) {
      var y :| y in charged && y.key == k && t <= y.at;
      assert y in charged + [x];
    }
  }

  /** What was reached before a charge to the key is not after its stamp. */
  lemma SteadyReached(charged: seq<Charged>, x: Charged, k: ChainId, t: i64)
    requires Steady(charged + [x], k) && x.key == k && Reached(charged, k, t)
    ensures t <= x.at
  {
    var y :| y in charged && y.key == k && t <= y.at;
    var i :| 0 <= i < |charged| && charged[i] == y;
    assert (charged + [x])[i] == y && (charged + [x])[|charged|] == x;
  }

  lemma ChargeBounded(f: Fork, i: nat, now: i64, k: ChainId)
    requires Bounded(f, k) && i < |f.counted| && Steady(Step(f, Charge(i, now)).charged, k)
    ensures Bounded(Step(f, Charge(i, now)), k)
  {
    hide Reached, Steady, KeyFor;
    var x := Charged(f.counted[i], KeyFor(f.windows, f.counted[i]), now, f.windows.Keys);
    var g := Step(f, Charge(i, now));
    assert g.charged == f.charged + [x];
    ReachedStill(f.charged, x, k, now);
    if k in f.windows {
      ReachedStill(f.charged, x, k, f.windows[k].last);
      if x.key == k {
        SteadyReached(f.charged, x, k, f.windows[k].last);
      }
    }
    forall w | w in f.inFlight && w.chain == k
      ensures w.from <= w.to && Reached(g.charged, k, w.to)
    {
      ReachedStill(f.charged, x, k, w.to);
    }
  }

  lemma StepKeepsBounded(f: Fork, a: Action, k: ChainId)
    requires Bounded(f, k) && Steady(Step(f, a).charged, k)
    ensures Bounded(Step(f, a), k)
  {
    hide Restored, Recorded, Lists, Steady, SpanBy, WindowsBy, KeyFor;
    NothingBy(f.charged, k);
    match a {
      case Charge(i, now) =>
        if i < |f.counted| {
          ChargeBounded(f, i, now, k);
        }
      case Take(order) =>
        if Lists(order, f.windows) {
          ListedBy(f.windows, order, f.charged, k);
        }
      case Report(accepted) => RestoredBy(f.windows, f.inFlight, f.charged, k);
      case _ =>
    }
  }

  lemma CoversInMore(a: seq<DropWindow>, b: seq<DropWindow>, k: ChainId, t: i64)
    ensures CoversIn(a + b, k, t) <==> CoversIn(a, k, t) || CoversIn(b, k, t)
  {
    assert forall w :: w in a + b <==> w in a || w in b;
  }

  lemma StepKeepsCovered(f: Fork, a: Action, k: ChainId)
    requires Bounded(f, k) && AllCovered(f, k) && Steady(Step(f, a).charged, k)
    ensures AllCovered(Step(f, a), k)
  {
    hide Lists, Restored, Recorded, CoveredAt, Bounded, Steady;
    var g := Step(f, a);
    forall x | x in g.charged && x.key == k
      ensures CoveredAt(g, k, x.at)
    {
      StillCovered(f, a, x);
    }
  }

  lemma StillCovered(f: Fork, a: Action, x: Charged)
    requires Bounded(f, x.key) && Steady(Step(f, a).charged, x.key)
    requires x in Step(f, a).charged && (x in f.charged ==> CoveredAt(f, x.key, x.at))
    ensures CoveredAt(Step(f, a), x.key, x.at)
  {
    hide Lists, Restored, Recorded, Covers, CoversIn, Bounded, Steady, KeyFor;
    var k, t := x.key, x.at;
    match a {
      case Charge(i, now) =>
        if i < |f.counted| {
          ChargeCovers(f, i, now, k, t);
        }
      case Take(order) =>
        if Lists(order, f.windows) && Covers(f.windows, k, t) {
          ListingCovers(f.windows, order, k, t);
        }
        NoneCover(k, t);
      case Report(accepted) =>
        CoversInMore(f.reported, f.inFlight, k, t);
        if Covers(f.windows, k, t) || CoversIn(f.inFlight, k, t) {
          RestoreCovers(f.windows, f.inFlight, k, t);
        }
      case Crash => CoversInMore(f.forgotten, f.inFlight, k, t);
      case _ =>
    }
  }

  lemma NoneCover(k: ChainId, t: i64)
    ensures !CoversIn([], k, t) && !Covers(map[], k, t)
  {
  }

  lemma ChargeCovers(f: Fork, i: nat, now: i64, k: ChainId, t: i64)
    requires Bounded(f, k) && i < |f.counted| && Steady(Step(f, Charge(i, now)).charged, k)
    ensures Covers(f.windows, k, t) ==> Covers(Recorded(f.windows, f.counted[i], now), k, t)
    ensures k == KeyFor(f.windows, f.counted[i]) ==> Covers(Recorded(f.windows, f.counted[i], now), k, now)
  {
    hide Reached, Steady, KeyFor;
    var x := Charged(f.counted[i], KeyFor(f.windows, f.counted[i]), now, f.windows.Keys);
    assert Step(f, Charge(i, now)).charged == f.charged + [x];
    if x.key == k && k in f.windows {
      SteadyReached(f.charged, x, k, f.windows[k].last);
    }
    RecordCoversIff(f.windows, f.counted[i], now);
  }

  /** As long as the stamps charged to a key do not go back in the order of
      charging, every drop charged to it lies within a window of it, whatever
      happens to other keys: open, in flight, reported or gone down with the
      receiver. */
  lemma {:induction false} RunCovers(capacity: nat, actions: seq<Action>, k: ChainId)
    requires Steady(Run(capacity, actions).charged, k)
    ensures AllCovered(Run(capacity, actions), k) && Bounded(Run(capacity, actions), k)
  {
    hide AllCovered, Bounded, Step, Steady;
    if actions == [] {
      StartCovered(capacity, k);
    } else {
      var f, a := Run(capacity, actions[..|actions| - 1]), actions[|actions| - 1];
      SteadyBefore(f, a, k);
      RunCovers(capacity, actions[..|actions| - 1], k);
      StepKeepsBounded(f, a, k);
      StepKeepsCovered(f, a, k);
    }
  }

  lemma StartCovered(capacity: nat, k: ChainId)
    ensures AllCovered(Start(capacity), k) && Bounded(Start(capacity), k)
  {
  }

  lemma SteadyBefore(f: Fork, a: Action, k: ChainId)
    requires Steady(Step(f, a).charged, k)
    ensures Steady(f.charged, k)
  {
    hide Restored, Recorded, Lists;
    var g := Step(f, a);
    assert f.charged <= g.charged;
    assert forall i :: 0 <= i < |f.charged| ==> f.charged[i] == g.charged[i];
  }
}
