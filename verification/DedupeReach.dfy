/**
 * How far deduplication reaches over whole runs: how much a live writer is
 * certain to remember, and how close two rows with one id can come.
 */
module DedupeReach {
  import opened Wrappers
  import opened Hashing
  import opened Canon
  import opened Events
  import opened Verify
  import opened Cursors
  import opened Batches
  import opened BatchTheorems
  import opened Heartbeats
  import opened Cutoffs
  import opened IngestRuns

  function Least(a: int, b: int): int {
    if a <= b then a else b
  }

  /** From row `base` on, rows with one id are more than `d` apart. */
  ghost predicate Apart(rows: seq<AuditEvent>, base: nat, d: int) {
    forall i, j :: base <= i < j < |rows| && rows[i].emitted.eventId == rows[j].emitted.eventId ==> j - i > d
  }

  /** The writer came to be when the chain had `base` rows, and remembers all rows
      since, or at least `d` of them. */
  ghost predicate Reaches(w: Cursor, rows: seq<AuditEvent>, base: nat, d: int) {
    base <= |rows| && |w.seenOrder| >= Least(|rows| - base, d) && Apart(rows, base, d)
  }

  lemma AppendReaches(H: HashFn, w: Cursor, c: ChainId, rows: seq<AuditEvent>, e: EmittedEvent, now: i64, base: nat, d: int)
    requires GoodRows(H, c, rows) && Stands(w, c, rows) && Reaches(w, rows, base, d) && d <= DEDUPE_WINDOW
    requires e.Chain() == c && |rows| + 1 < U64_MAX && e.eventId !in w.seen
    ensures Append(H, w, e, now).Ok?
    ensures
      var (w', event) := Append(H, w, e, now).value;
      event.emitted == e && Reaches(w', rows + [event], base, d)
  {
    hide GoodRows, Append, Stands;
    AppendStands(H, w, c, rows, e, now);
    WindowHolds(w, c, rows);
    var event := Append(H, w, e, now).value.1;
    NewFarFromOld(w, c, rows, event, base, d);
  }

  lemma NewFarFromOld(w: Cursor, c: ChainId, rows: seq<AuditEvent>, event: AuditEvent, base: nat, d: int)
    requires Stands(w, c, rows) && Reaches(w, rows, base, d) && event.emitted.eventId !in w.seen
    ensures Apart(rows + [event], base, d)
  {
    hide HeadOf, IndexExact;
    WindowHolds(w, c, rows);
    forall i | |rows| - |w.seenOrder| <= i < |rows|
      ensures rows[i].emitted.eventId in w.seen
    {
      var k := i - (|rows| - |w.seenOrder|);
      assert w.seenOrder[k] == rows[|rows| - |w.seenOrder| + k].emitted.eventId;
      SeenIffInOrder(w, w.seenOrder[k]);
    }
  }

  // ----- One batch -----

  /** The chain's writer during a batch, if it has one. */
  ghost predicate BatchReaches(store: Store, b: Batch, c: ChainId, base: nat, d: int) {
    c in b.writers ==> Reaches(b.writers[c], RowsWith(store, b.chained, c), base, d)
  }

  /** How many rows the chain had when its writer came to be: `base` if it is
      there, those stored now if it has yet to come. */
  function BaseOf(store: Store, writers: Writers, c: ChainId, base: nat): nat {
    if c in writers then base else |Of(store, c)|
  }

  lemma TouchedReaches(H: HashFn, nodeId: Str, store: Store, b: Batch, x: ChainId, c: ChainId, base: nat, d: int)
    requires BatchSound(H, store, b) && BatchReaches(store, b, c, base, d)
    requires c !in b.writers ==> base == |Of(store, c)|
    ensures BatchReaches(store, Touched(nodeId, store, b, x), c, base, d)
  {
    hide GoodRows, HeadRow, BatchSound, HeadOf, Stands;
    if x == c && c !in b.writers {
      ChainOf(H, store, b, c);
      assert RowsWith(store, b.chained, c) == Of(store, c);
      assert Touched(nodeId, store, b, c).writers[c].seenOrder == [];
    }
  }

  lemma TakeOneReaches(
    H: HashFn, nodeId: Str, store: Store, b: Batch, e: EmittedEvent, a: Ambient, c: ChainId, base: nat, d: int)
    requires b.outcome.Going? && BatchSound(H, store, b) && Sound(H, store, map[]) && Room(store, |b.chained| + 1)
    requires BatchReaches(store, b, c, base, d) && d <= DEDUPE_WINDOW && (c !in b.writers ==> base == |Of(store, c)|)
    requires TakeOne(H, nodeId, store, b, e, a).outcome.Going?
    ensures BatchReaches(store, TakeOne(H, nodeId, store, b, e, a), c, base, d)
  {
    hide GoodRows, Stands, Append, BatchSound, Resumed, HeadRow, Reaches, Sound, Only;
    RoomLess(store, |b.chained| + 1);
    var x := e.Chain();
    TouchedSound(H, nodeId, store, b, x);
    TouchedReaches(H, nodeId, store, b, x, c, base, d);
    var t := Touched(nodeId, store, b, x);
    if Append(H, t.writers[x], e, a.now).Ok? {
      ChainedReaches(H, store, t, e, a.now, c, base, d);
      var w := Append(H, t.writers[x], e, a.now).value.0;
      assert t.writers[x := w] == b.writers[x := w];
    }
  }

  lemma ChainedReaches(H: HashFn, store: Store, t: Batch, e: EmittedEvent, now: i64, c: ChainId, base: nat, d: int)
    requires BatchSound(H, store, t) && Room(store, |t.chained| + 1) && e.Chain() in t.writers
    requires BatchReaches(store, t, c, base, d) && d <= DEDUPE_WINDOW && Append(H, t.writers[e.Chain()], e, now).Ok?
    ensures
      var (w, event) := Append(H, t.writers[e.Chain()], e, now).value;
      BatchReaches(store, t.(writers := t.writers[e.Chain() := w], chained := t.chained + [event]), c, base, d)
  {
    hide GoodRows, Stands, BatchSound, Reaches, Only, ChainEvent;
    var x := e.Chain();
    var rows := RowsWith(store, t.chained, x);
    var (w, event) := Append(H, t.writers[x], e, now).value;
    ChainOf(H, store, t, x);
    OnlyBounded(t.chained, x);
    assert |Of(store, x)| + (|t.chained| + 1) < U64_MAX;
    AppendStandsMore(H, t.writers[x], x, rows, e, now);
    OnlyOneMore(t.chained, event, c);
    if x == c {
      AppendReaches(H, t.writers[x], x, rows, e, now, base, d);
      assert RowsWith(store, t.chained + [event], c) == rows + [event];
    } else {
      assert Only(t.chained + [event], c) == Only(t.chained, c);
    }
  }

  lemma {:induction false} TakeAllReaches(
    H: HashFn, nodeId: Str, store: Store, writers: Writers, es: seq<EmittedEvent>, ambient: seq<Ambient>, c: ChainId, base: nat, d: int)
    requires |es| == |ambient| && Sound(H, store, writers) && Room(store, |es|) && d <= DEDUPE_WINDOW
    requires BatchReaches(store, StartBatch(writers), c, base, d) && (c !in writers ==> base == |Of(store, c)|)
    ensures
      var b := TakeAll(H, nodeId, store, StartBatch(writers), es, ambient);
      b.outcome.Going? ==> BatchReaches(store, b, c, base, d) && (c in writers ==> c in b.writers)
    decreases |es|
  {
    hide GoodRows, Stands, TakeOne, BatchSound, HasId, Sound, BatchReaches;
    if es != [] {
      var n := |es| - 1;
      RoomFor(store, |es|, n);
      TakeAllReaches(H, nodeId, store, writers, es[..n], ambient[..n], c, base, d);
      TakeAllSound(H, nodeId, store, writers, es[..n], ambient[..n]);
      var b := TakeAll(H, nodeId, store, StartBatch(writers), es[..n], ambient[..n]);
      RoomFor(store, |es|, |b.chained| + 1);
      SoundWithoutWriters(H, store, writers);
      StoppedChained(H, nodeId, store, b, es[n], ambient[n]);
      if b.outcome.Going? && TakeOne(H, nodeId, store, b, es[n], ambient[n]).outcome.Going? {
        WritersStay(H, nodeId, store, b, es[n], ambient[n]);
        TakeOneReaches(H, nodeId, store, b, es[n], ambient[n], c, base, d);
      }
    }
  }

  lemma WritersStay(H: HashFn, nodeId: Str, store: Store, b: Batch, e: EmittedEvent, a: Ambient)
    requires b.outcome.Going?
    ensures b.writers.Keys <= TakeOne(H, nodeId, store, b, e, a).writers.Keys
  {
    hide Append, Resumed;
  }

  /** How many rows a writer is certain to remember if no more than `size` events
      are ever undone at once. */
  function Certain(size: nat): (d: nat)
    ensures d <= DEDUPE_WINDOW
  {
    if size <= DEDUPE_WINDOW then DEDUPE_WINDOW - size else 0
  }

  ghost predicate ChainReaches(store: Store, writers: Writers, c: ChainId, base: nat, d: int) {
    c in writers ==> Reaches(writers[c], Of(store, c), base, d)
  }

  lemma StartReaches(store: Store, writers: Writers, c: ChainId, base: nat, d: int)
    requires ChainReaches(store, writers, c, base, d)
    ensures BatchReaches(store, StartBatch(writers), c, base, d)
    ensures c !in writers ==> BatchReaches(store, StartBatch(writers), c, |Of(store, c)|, d)
  {
    hide Reaches;
    assert Of(store, c) + [] == Of(store, c);
  }

  lemma StoredReaches(store: Store, b: Batch, c: ChainId, base: nat, d: int)
    requires BatchReaches(store, b, c, base, d)
    ensures ChainReaches(StoreAll(store, b.chained), b.writers, c, base, d)
  {
    hide Reaches, RowsWith;
    StoreAllAppends(store, b.chained, c);
  }

  lemma UndoneReaches(
    store: Store, start: Writers, chained: seq<AuditEvent>, back: Writers, c: ChainId, base: nat, size: nat)
    requires ChainReaches(store, start, c, base, Certain(size)) && MemoryBack(start, chained, back) && |chained| <= size
    ensures ChainReaches(store, back, c, BaseOf(store, start, c, base), Certain(size))
  {
    OnlyBounded(chained, c);
  }

  lemma SettledReaches(
    H: HashFn, nodeId: Str, store: Store, writers: Writers, es: seq<EmittedEvent>, ambient: seq<Ambient>, stored: bool,
    c: ChainId, base: nat, size: nat)
    requires |es| == |ambient| <= size && Sound(H, store, writers) && Room(store, |es|)
    requires ChainReaches(store, writers, c, base, Certain(size))
    ensures
      var (store', writers') := Settled(store, TakeAll(H, nodeId, store, StartBatch(writers), es, ambient), stored);
      ChainReaches(store', writers', c, BaseOf(store, writers, c, base), Certain(size))
  {
    hide TakeAll, Sound, ChainReaches, BatchReaches, MemoryBack, BatchSound, HasId, StoreAll, Certain;
    var b := TakeAll(H, nodeId, store, StartBatch(writers), es, ambient);
    var d, base' := Certain(size), BaseOf(store, writers, c, base);
    StartReaches(store, writers, c, base, d);
    TakeAllReaches(H, nodeId, store, writers, es, ambient, c, base', d);
    TakeAllSound(H, nodeId, store, writers, es, ambient);
    if HandedBack(b, stored) {
      HandedBackMemory(H, nodeId, store, writers, es, ambient, stored);
      UndoneReaches(store, writers, b.chained, Settled(store, b, stored).1, c, base, size);
    } else {
      StoredReaches(store, b, c, base', d);
      assert b.chained == [] ==> StoreAll(store, b.chained) == store by { NothingStored(store); }
    }
  }

  lemma NothingStored(store: Store)
    ensures StoreAll(store, []) == store
  {
  }

  // ----- Heartbeats -----

  lemma OfferOneReaches(H: HashFn, store: Store, b: Beat, x: ChainId, now: i64, stamp: i64, c: ChainId, base: nat, d: int)
    requires Room(store, |b.written| + 1) && Room(store, 0) && BatchSound(H, store, AsBatch(store, b)) && d <= DEDUPE_WINDOW
    requires BatchReaches(store, AsBatch(store, b), c, base, d)
    ensures BatchReaches(store, AsBatch(store, OfferOne(H, b, x, now, stamp)), c, base, d)
  {
    hide GoodRows, Stands, Append, BatchSound, HasId, HeadOf, RowsWith, Reaches;
    var t, b' := AsBatch(store, b), OfferOne(H, b, x, now, stamp);
    if x in b.writers && b.writers[x].lastHeartbeat != Some(DayOf(now)) {
      var day := Some(DayOf(now));
      ChainStands(H, store, t, x);
      MarkedSound(H, store, t, x, day);
      MarkedReaches(store, t, x, day, c, base, d);
      var m := t.(writers := t.writers[x := t.writers[x].(lastHeartbeat := day)]);
      var e := HeartbeatEvent(H, b.writers[x], DayOf(now), now);
      assert e.Chain() == x;
      if Append(H, m.writers[x], e, stamp).Ok? {
        ChainedReaches(H, store, m, e, stamp, c, base, d);
        var w := Append(H, m.writers[x], e, stamp).value.0;
        assert m.writers[x := w] == b.writers[x := w];
      }
    } else if x in b.writers {
      assert b.writers[x := b.writers[x]] == b.writers;
    }
  }

  lemma MarkedReaches(store: Store, b: Batch, x: ChainId, day: Option<int>, c: ChainId, base: nat, d: int)
    requires BatchReaches(store, b, c, base, d) && x in b.writers
    ensures BatchReaches(store, b.(writers := b.writers[x := b.writers[x].(lastHeartbeat := day)]), c, base, d)
  {
  }

  lemma {:induction false} OfferAllReaches(
    H: HashFn, store: Store, writers: Writers, order: seq<ChainId>, now: i64, stamps: seq<i64>, c: ChainId, base: nat, d: int)
    requires |order| == |stamps| && Sound(H, store, writers) && Room(store, |order|) && Room(store, 0) && d <= DEDUPE_WINDOW
    requires ChainReaches(store, writers, c, base, d)
    ensures BatchReaches(store, AsBatch(store, OfferAll(H, writers, order, now, stamps)), c, base, d)
    decreases |order|
  {
    hide GoodRows, Stands, OfferOne, BatchSound, Sound, BatchReaches;
    if order == [] {
      StartReaches(store, writers, c, base, d);
      SameReaches(store, StartBatch(writers), AsBatch(store, Beat(writers, [])), c, base, d);
    } else {
      var n := |order| - 1;
      RoomFor(store, |order|, n);
      OfferAllReaches(H, store, writers, order[..n], now, stamps[..n], c, base, d);
      OfferAllSound(H, store, writers, order[..n], now, stamps[..n]);
      var b := OfferAll(H, writers, order[..n], now, stamps[..n]);
      RoomFor(store, |order|, |b.written| + 1);
      OfferOneReaches(H, store, b, order[n], now, stamps[n], c, base, d);
    }
  }

  lemma SameReaches(store: Store, b: Batch, b': Batch, c: ChainId, base: nat, d: int)
    requires BatchReaches(store, b, c, base, d) && b'.writers == b.writers && b'.chained == b.chained
    ensures BatchReaches(store, b', c, base, d)
  {
  }

  // ----- Whole runs -----

  /** A pull is of at most `size` messages. */
  predicate Within(step: Step, size: nat) {
    step.Pull? || step.Cut? ==> |Decoded(step.messages)| <= size
  }

  lemma NextReaches(H: HashFn, nodeId: Str, s: Sys, step: Step, c: ChainId, base: nat, size: nat)
    requires SysSound(H, s) && !Loses(H, nodeId, s, step) && Within(step, size)
    requires ChainReaches(s.store, s.writers, c, base, Certain(size))
    ensures
      var s' := Next(H, nodeId, s, step);
      c in s'.writers ==> ChainReaches(s'.store, s'.writers, c, BaseOf(s.store, s.writers, c, base), Certain(size))
  {
    hide GoodRows, Stands, HasId, TakeAll, OfferAll, Room, AckedStored, Sound, Reaches, Settled, Certain, StoreAll, BeatDue, OfferedOnly;
    if Enabled(s, step) {
      match step {
        case Pull(messages, ambient, stored, _) =>
          SettledReaches(H, nodeId, s.store, s.writers, Decoded(messages), ambient, stored, c, base, size);
        case Cut(messages, ambient, landed, _) =>
          CutReaches(H, nodeId, s.store, s.writers, Decoded(messages)[..|ambient|], ambient, landed, c, base, size);
        case Beats(order, now, stamps, stored) =>
          WrittenNothingIff(H, s.writers, order, now, stamps);
          BeatenReaches(H, s.store, s.writers, order, now, stamps, stored, c, base, Certain(size));
        case Restart =>
      }
    }
  }

  lemma CutReaches(
    H: HashFn, nodeId: Str, store: Store, writers: Writers, es: seq<EmittedEvent>, ambient: seq<Ambient>, landed: bool,
    c: ChainId, base: nat, size: nat)
    requires |es| == |ambient| <= size && Sound(H, store, writers) && Room(store, |es|)
    requires ChainReaches(store, writers, c, base, Certain(size))
    requires Stranded(TakeAll(H, nodeId, store, StartBatch(writers), es, ambient), landed) == []
    ensures
      var (store', writers') := CutAt(store, TakeAll(H, nodeId, store, StartBatch(writers), es, ambient), landed);
      ChainReaches(store', writers', c, BaseOf(store, writers, c, base), Certain(size))
  {
    hide TakeAll, Sound, ChainReaches, StoreAll, Certain;
    SettledReaches(H, nodeId, store, writers, es, ambient, landed, c, base, size);
    NothingStored(store);
    TakeAllSound(H, nodeId, store, writers, es, ambient);
  }

  lemma BeatenReaches(
    H: HashFn, store: Store, writers: Writers, order: seq<ChainId>, now: i64, stamps: seq<i64>, stored: bool,
    c: ChainId, base: nat, d: int)
    requires |order| == |stamps| && Sound(H, store, writers) && Room(store, |order|) && d <= DEDUPE_WINDOW
    requires ChainReaches(store, writers, c, base, d)
    requires stored || OfferAll(H, writers, order, now, stamps).written == []
    ensures
      var (store', writers') := Beaten(store, OfferAll(H, writers, order, now, stamps), stored);
      ChainReaches(store', writers', c, base, d)
  {
    hide OfferAll, Sound, ChainReaches, StoreAll, BatchReaches;
    RoomFor(store, |order|, 0);
    OfferAllReaches(H, store, writers, order, now, stamps, c, base, d);
    StoredReaches(store, AsBatch(store, OfferAll(H, writers, order, now, stamps)), c, base, d);
    NothingStored(store);
  }

  /** How many rows the chain had when its live writer came to be. */
  ghost function Base(H: HashFn, nodeId: Str, steps: seq<Step>, c: ChainId): nat {
    if steps == [] then 0
    else
      var before := steps[..|steps| - 1];
      var s := Run(H, nodeId, before);
      BaseOf(s.store, s.writers, c, Base(H, nodeId, before, c))
  }

  lemma {:induction false} RunReaches(H: HashFn, nodeId: Str, steps: seq<Step>, size: nat, c: ChainId)
    requires Whole(H, nodeId, steps) && forall step | step in steps :: Within(step, size)
    ensures var s := Run(H, nodeId, steps);
            ChainReaches(s.store, s.writers, c, Base(H, nodeId, steps, c), Certain(size))
  {
    hide SysSound, Next, Loses, StoreSound, Reaches, Within, Certain, Whole, BaseOf;
    if steps != [] {
      var n := |steps| - 1;
      var s := Run(H, nodeId, steps[..n]);
      assert forall step | step in steps[..n] :: step in steps;
      LastOfWhole(H, nodeId, steps);
      RunSound(H, nodeId, steps[..n]);
      if Whole(H, nodeId, steps[..n]) {
        RunReaches(H, nodeId, steps[..n], size, c);
        assert steps[n] in steps;
        NextReaches(H, nodeId, s, steps[n], c, Base(H, nodeId, steps[..n], c), size);
      } else {
        Restarted(H, nodeId, s);
      }
    }
  }

  lemma LastOfWhole(H: HashFn, nodeId: Str, steps: seq<Step>)
    requires Whole(H, nodeId, steps) && steps != []
    ensures
      var n := |steps| - 1;
      && Healed(H, nodeId, steps[..n]) && !Loses(H, nodeId, Run(H, nodeId, steps[..n]), steps[n])
      && (!Whole(H, nodeId, steps[..n]) ==> steps[n].Restart?)
  {
    hide Loses, Run;
    HealedBefore(H, nodeId, steps);
    assert LosesAt(H, nodeId, steps, |steps| - 1) <==> Loses(H, nodeId, Run(H, nodeId, steps[..|steps| - 1]), steps[|steps| - 1]);
  }

  /** Deduplication reaches back to where the writer came to be, or over the window
      less one pull: a live writer refuses every event found that far back among its
      rows, and two rows with one id that it chained are more than the window less
      one pull apart. */
  lemma RecentTurnedAway(H: HashFn, nodeId: Str, steps: seq<Step>, size: nat, e: EmittedEvent, now: i64)
    requires Whole(H, nodeId, steps) && forall step | step in steps :: Within(step, size)
    requires e.Chain() in Run(H, nodeId, steps).writers
    ensures
      var s, base := Run(H, nodeId, steps), Base(H, nodeId, steps, e.Chain());
      var w, rows := s.writers[e.Chain()], Of(s.store, e.Chain());
      && base <= |rows|
      && (HasId(rows[|rows| - Least(|rows| - base, Certain(size))..], e.eventId) ==> Append(H, w, e, now).Err?)
      && Apart(rows, base, Certain(size))
  {
    hide Run, Healed, Append, HasId, Within, Base, Certain, Apart, LosesAt, GoodRows, Stands, AckedStored;
    RunSound(H, nodeId, steps);
    RunReaches(H, nodeId, steps, size, e.Chain());
    var s, base := Run(H, nodeId, steps), Base(H, nodeId, steps, e.Chain());
    TailReaches(H, s.writers[e.Chain()], Of(s.store, e.Chain()), e, now, base, Certain(size));
  }

  lemma TailReaches(H: HashFn, w: Cursor, rows: seq<AuditEvent>, e: EmittedEvent, now: i64, base: nat, d: nat)
    requires Stands(w, e.Chain(), rows) && Reaches(w, rows, base, d)
    ensures HasId(rows[|rows| - Least(|rows| - base, d)..], e.eventId) ==> Append(H, w, e, now).Err?
  {
    hide Stands, Append, HasId, Apart;
    TailTurnedAway(H, w, rows, e, now);
    SuffixHasId(rows, |rows| - |w.seenOrder|, |rows| - Least(|rows| - base, d), e.eventId);
  }

  lemma SuffixHasId(rows: seq<AuditEvent>, a: nat, b: nat, id: EventId)
    requires a <= b <= |rows|
    ensures HasId(rows[b..], id) ==> HasId(rows[a..], id)
  {
    if x :| x in rows[b..] && x.emitted.eventId == id {
      assert x in rows[a..];
    }
  }
}
