/**
 * Daily heartbeats: one pass over the live writers, then one insert.  Unlike a
 * batch of messages, a refused insert is not undone.
 */
module Heartbeats {
  import opened Wrappers
  import opened Hashing
  import opened Canon
  import opened Events
  import opened Chain
  import opened Verify
  import opened VerifyTheorems
  import opened Cursors
  import opened Batches
  import opened BatchTheorems

  datatype Beat = Beat(writers: Writers, written: seq<AuditEvent>)

  /** One writer is offered its heartbeat; what it refuses is passed over. */
  function OfferOne(H: HashFn, b: Beat, c: ChainId, now: i64, stamp: i64): Beat {
    if c !in b.writers then b
    else
      var (w, r) := Heartbeat(H, b.writers[c], now, stamp);
      Beat(b.writers[c := w], match r case Some(Ok(event)) => b.written + [event] case _ => b.written)
  }

  /** The writers in the order they come in, which is any. */
  function OfferAll(H: HashFn, writers: Writers, order: seq<ChainId>, now: i64, stamps: seq<i64>): Beat
    requires |order| == |stamps|
  {
    if order == [] then Beat(writers, [])
    else
      var n := |order| - 1;
      OfferOne(H, OfferAll(H, writers, order[..n], now, stamps[..n]), order[n], now, stamps[n])
  }

  /** Nothing is rewound if the insert is refused. */
  function Beaten(store: Store, b: Beat, stored: bool): (Store, Writers) {
    (if b.written != [] && stored then StoreAll(store, b.written) else store, b.writers)
  }

  /** A beat as a batch that has touched every writer. */
  ghost function AsBatch(store: Store, b: Beat): Batch
    requires Room(store, 0)
  {
    Batch(
      b.writers, map c | c in b.writers :: assert |Of(store, c)| + 0 < U64_MAX; (|Of(store, c)| + 1, HeadOf(Of(store, c), GENESIS)),
      b.written, 0, Going)
  }

  lemma StandsWhateverDay(w: Cursor, c: ChainId, rows: seq<AuditEvent>, day: Option<int>)
    requires Stands(w, c, rows)
    ensures Stands(w.(lastHeartbeat := day), c, rows)
  {
  }

  lemma StartBeatSound(H: HashFn, store: Store, writers: Writers)
    requires Sound(H, store, writers) && Room(store, 0)
    ensures BatchSound(H, store, AsBatch(store, Beat(writers, [])))
  {
    hide GoodRows, Stands, HeadOf;
    forall c
      ensures ChainSound(H, store, AsBatch(store, Beat(writers, [])), c)
    {
      assert Only([], c) == [];
      assert RowsWith(store, [], c) == Of(store, c);
    }
  }

  lemma MarkedSound(H: HashFn, store: Store, b: Batch, c: ChainId, day: Option<int>)
    requires BatchSound(H, store, b) && c in b.writers
    ensures BatchSound(H, store, b.(writers := b.writers[c := b.writers[c].(lastHeartbeat := day)]))
  {
    hide GoodRows, Stands, HeadOf;
    var b' := b.(writers := b.writers[c := b.writers[c].(lastHeartbeat := day)]);
    forall x
      ensures ChainSound(H, store, b', x)
    {
      ChainOf(H, store, b, x);
      if x == c {
        StandsWhateverDay(b.writers[c], c, RowsWith(store, b.chained, c), day);
      }
    }
  }

  lemma OfferOneSound(H: HashFn, store: Store, b: Beat, c: ChainId, now: i64, stamp: i64)
    requires Room(store, |b.written| + 1) && Room(store, 0)
    requires BatchSound(H, store, AsBatch(store, b))
    ensures BatchSound(H, store, AsBatch(store, OfferOne(H, b, c, now, stamp)))
    ensures |OfferOne(H, b, c, now, stamp).written| <= |b.written| + 1
  {
    hide GoodRows, Stands, Append, BatchSound, HasId, HeadOf, RowsWith;
    var t, b' := AsBatch(store, b), OfferOne(H, b, c, now, stamp);
    if c in b.writers && b.writers[c].lastHeartbeat != Some(DayOf(now)) {
      var day := Some(DayOf(now));
      ChainStands(H, store, t, c);
      MarkedSound(H, store, t, c, day);
      var m := t.(writers := t.writers[c := t.writers[c].(lastHeartbeat := day)]);
      var e := HeartbeatEvent(H, b.writers[c], DayOf(now), now);
      assert e.Chain() == c;
      ChainedSound(H, store, m, e, stamp);
      match Append(H, m.writers[c], e, stamp) {
        case Ok((w, event)) =>
          assert m.writers[c := w] == b.writers[c := w];
          assert AsBatch(store, b').rollback == m.rollback;
          assert AsBatch(store, b') == m.(writers := m.writers[c := w], chained := m.chained + [event]);
        case Err(_) =>
          assert AsBatch(store, b').rollback == m.rollback;
          assert AsBatch(store, b') == m;
      }
    } else if c in b.writers {
      assert b.writers[c := b.writers[c]] == b.writers;
    }
  }

  lemma ChainStands(H: HashFn, store: Store, b: Batch, c: ChainId)
    requires BatchSound(H, store, b) && c in b.writers
    ensures Stands(b.writers[c], c, RowsWith(store, b.chained, c)) && b.writers[c].chain == c
  {
    hide GoodRows;
    ChainOf(H, store, b, c);
  }

  lemma {:induction false} OfferAllSound(H: HashFn, store: Store, writers: Writers, order: seq<ChainId>, now: i64, stamps: seq<i64>)
    requires |order| == |stamps| && Sound(H, store, writers) && Room(store, |order|) && Room(store, 0)
    ensures var b := OfferAll(H, writers, order, now, stamps);
            BatchSound(H, store, AsBatch(store, b)) && |b.written| <= |order|
    decreases |order|
  {
    hide GoodRows, Stands, OfferOne, BatchSound, Sound, AsBatch;
    if order == [] {
      StartBeatSound(H, store, writers);
    } else {
      var n := |order| - 1;
      RoomFor(store, |order|, n);
      OfferAllSound(H, store, writers, order[..n], now, stamps[..n]);
      var b := OfferAll(H, writers, order[..n], now, stamps[..n]);
      RoomFor(store, |order|, |b.written| + 1);
      OfferOneSound(H, store, b, order[n], now, stamps[n]);
    }
  }

  /** Heartbeats that are stored keep every chain sound and every writer at its
      stored head.  Heartbeats that are refused keep it exactly if there were
      none: a refused heartbeat leaves its writer ahead of the store. */
  lemma HeartbeatsSoundIff(
    H: HashFn, store: Store, writers: Writers, order: seq<ChainId>, now: i64, stamps: seq<i64>, stored: bool)
    requires |order| == |stamps| && Sound(H, store, writers) && Room(store, |order|)
    ensures
      var b := OfferAll(H, writers, order, now, stamps);
      var (store', writers') := Beaten(store, b, stored);
      && (Sound(H, store', writers') <==> stored || b.written == [])
      && Extends(store, store')
  {
    hide GoodRows, Stands, BatchSound, OfferAll, HeadOf;
    RoomFor(store, |order|, 0);
    OfferAllSound(H, store, writers, order, now, stamps);
    var b := OfferAll(H, writers, order, now, stamps);
    var t := AsBatch(store, b);
    StoredSound(H, store, t);
    if b.written == [] {
      assert StoreAll(store, b.written) == store;
    } else if !stored {
      Ahead(H, store, b);
    }
  }

  lemma Ahead(H: HashFn, store: Store, b: Beat)
    requires Room(store, 0) && BatchSound(H, store, AsBatch(store, b)) && b.written != []
    ensures var c := b.written[|b.written| - 1].emitted.Chain();
            c in b.writers && b.writers[c].nextSeq > |Of(store, c)| + 1
    ensures !Sound(H, store, b.writers)
  {
    hide GoodRows, HeadOf, RemembersTail, IndexExact;
    var c := b.written[|b.written| - 1].emitted.Chain();
    assert Only(b.written, c) != [];
    ChainOf(H, store, AsBatch(store, b), c);
  }

  /** How a refused heartbeat shows: the next event of that chain that is stored
      leaves a gap where the heartbeats were to be. */
  lemma RefusedHeartbeatLeavesGap(
    H: HashFn, store: Store, writers: Writers, order: seq<ChainId>, now: i64, stamps: seq<i64>, e: EmittedEvent, stamp: i64)
    requires |order| == |stamps| && Sound(H, store, writers) && Room(store, |order| + 1)
    requires
      var b, c := OfferAll(H, writers, order, now, stamps), e.Chain();
      && Of(store, c) != [] && Only(b.written, c) != []
      && c in b.writers && e.eventId !in b.writers[c].seen
    ensures
      var b, c := OfferAll(H, writers, order, now, stamps), e.Chain();
      var rows, lost := Of(store, c), |Only(b.written, c)|;
      && Append(H, b.writers[c], e, stamp).Ok?
      && var event := Append(H, b.writers[c], e, stamp).value.1;
      && event.seqNo == |rows| + lost + 1 && Gap(|rows|, |rows| + lost + 1) in Report(H, rows + [event], GENESIS).violations
  {
    hide GoodRows, BatchSound, OfferAll, HeadOf, RemembersTail, IndexExact, Append, EventFindings, Findings;
    RoomFor(store, |order| + 1, 0);
    RoomFor(store, |order| + 1, |order|);
    OfferAllSound(H, store, writers, order, now, stamps);
    var b, c := OfferAll(H, writers, order, now, stamps), e.Chain();
    ChainOf(H, store, AsBatch(store, b), c);
    OnlyBounded(b.written, c);
    assert |Of(store, c)| + (|order| + 1) < U64_MAX;
    AppendStands(H, b.writers[c], c, RowsWith(store, b.written, c), e, stamp);
    SkippedIsGap(H, c, store, RowsWith(store, b.written, c), Append(H, b.writers[c], e, stamp).value.1);
  }

  lemma SkippedIsGap(H: HashFn, c: ChainId, store: Store, before: seq<AuditEvent>, event: AuditEvent)
    requires Of(store, c) != [] && Of(store, c) < before && GoodRows(H, c, before + [event])
    ensures event.seqNo == |before| + 1
    ensures Gap(|Of(store, c)|, |before| + 1) in Report(H, Of(store, c) + [event], GENESIS).violations
  {
    hide Findings, EventHash, GoodRows, LinkFindings, ContentFindings;
    var rows := Of(store, c);
    var es, n := rows + [event], |rows|;
    PositionAt(H, c, before + [event], n - 1);
    PositionAt(H, c, before + [event], |before|);
    assert es[n - 1] == rows[n - 1] == (before + [event])[n - 1];
    FindingsMember(H, es, None, GENESIS, Gap(n, |before| + 1));
    assert Gap(n, |before| + 1) in PositionFindings(Some(rows[n - 1].seqNo), event);
    assert Gap(n, |before| + 1) in FindingsAt(H, es, None, GENESIS, n);
  }

  lemma PositionAt(H: HashFn, c: ChainId, rows: seq<AuditEvent>, i: nat)
    requires GoodRows(H, c, rows) && i < |rows|
    ensures rows[i].seqNo == i + 1
  {
  }

  lemma {:induction false} TrimKeepsMark(w: Cursor)
    ensures Trim(w).lastHeartbeat == w.lastHeartbeat
    decreases |w.seenOrder|
  {
    if |w.seenOrder| > DEDUPE_WINDOW {
      TrimKeepsMark(w.(seenOrder := w.seenOrder[1..], seen := w.seen - {w.seenOrder[0]}));
    }
  }

  /** A day once offered is marked, stored or not: the writer refuses it a second
      time, so a refused heartbeat is not written later the same day. */
  lemma OfferedOnceADay(H: HashFn, w: Cursor, now: i64, stamp: i64, later: i64, stamp': i64)
    requires DayOf(later) == DayOf(now)
    ensures Heartbeat(H, Heartbeat(H, w, now, stamp).0, later, stamp') == (Heartbeat(H, w, now, stamp).0, None)
  {
    hide Sealed, Trim;
    var marked := w.(lastHeartbeat := Some(DayOf(now)));
    var e := HeartbeatEvent(H, w, DayOf(now), now);
    if event :| Sealed(H, Unsealed(marked, e, stamp)) == Ok(event) {
      var full := marked.(head := event.eventHash, nextSeq := Bump(marked.nextSeq));
      TrimKeepsMark(full.(seen := full.seen[e.eventId := marked.nextSeq], seenOrder := full.seenOrder + [e.eventId]));
    }
  }

  /** The day's mark is in memory only: after a restart the same heartbeat is
      chained again, on top of the stored one. */
  lemma RestartBeatsAgain(H: HashFn, chain: ChainId, nodeId: Str, rows: seq<AuditEvent>, now: i64, stamp: i64)
    requires GoodRows(H, chain, rows) && |rows| + 1 < U64_MAX
    ensures
      var w := Resumed(chain, nodeId, HeadRow(rows));
      var (w', r) := Heartbeat(H, w, now, stamp);
      && r.Some? && r.value.Ok?
      && r.value.value.emitted.eventId == HeartbeatId(H, chain, DayOf(now))
      && GoodRows(H, chain, rows + [r.value.value]) && Stands(w', chain, rows + [r.value.value])
  {
    hide GoodRows, Append, RemembersTail, IndexExact, HeadOf;
    ResumedStands(H, chain, nodeId, rows);
    var w := Resumed(chain, nodeId, HeadRow(rows));
    StandsWhateverDay(w, chain, rows, Some(DayOf(now)));
    AppendStands(H, w.(lastHeartbeat := Some(DayOf(now))), chain, rows, HeartbeatEvent(H, w, DayOf(now), now), stamp);
  }

  // ----- One heartbeat a day -----

  /** Days are 24 hours of microseconds, before 1970 too. */
  lemma DayIs(now: i64, d: int)
    ensures DayOf(now) == d <==> d * (24 * 60 * 60 * 1_000_000) <= now < (d + 1) * (24 * 60 * 60 * 1_000_000)
  {
  }

  lemma {:induction false} DigitsAre(n: nat)
    ensures Digits(n) != [] && forall i :: 0 <= i < |Digits(n)| ==> 48 <= Digits(n)[i] <= 57
  {
    if n >= 10 {
      DigitsAre(n / 10);
    }
  }

  lemma {:induction false} DigitsInjective(m: nat, n: nat)
    requires Digits(m) == Digits(n)
    ensures m == n
  {
    var a, b := Digits(m), Digits(n);
    assert a[|a| - 1] == (48 + m % 10) as byte && b[|b| - 1] == (48 + n % 10) as byte;
    assert m % 10 == n % 10;
    var x, y := a[..|a| - 1], b[..|b| - 1];
    assert x == (if m < 10 then [] else Digits(m / 10)) && y == (if n < 10 then [] else Digits(n / 10));
    if m >= 10 {
      DigitsAre(m / 10);
    }
    if n >= 10 {
      DigitsAre(n / 10);
    }
    if m >= 10 && n >= 10 {
      DigitsInjective(m / 10, n / 10);
    }
  }

  /** Two days are written differently. */
  lemma DecimalInjective(m: int, n: int)
    requires Decimal(m) == Decimal(n)
    ensures m == n
  {
    hide Digits;
    var p, q := if m < 0 then -m else m, if n < 0 then -n else n;
    DigitsAre(p);
    DigitsAre(q);
    assert m < 0 ==> Decimal(m)[0] == 45 && Decimal(m)[1..] == Digits(p);
    assert n < 0 ==> Decimal(n)[0] == 45 && Decimal(n)[1..] == Digits(q);
    DigitsInjective(p, q);
  }

  /** Two different strings of `hashed` have digests that agree in their first 16 bytes. */
  ghost predicate ShortCollisionIn(H: HashFn, hashed: set<Bytes>) {
    exists x, y :: x in hashed && y in hashed && x != y && H(x)[..16] == H(y)[..16]
  }

  /** The strings hashed for the ids of a chain's heartbeats on these days. */
  ghost function HeartbeatInputs(c: ChainId, days: set<int>): set<Bytes> {
    set d | d in days :: HeartbeatInput(c, d)
  }

  /** The heartbeats of different days have different ids, or the two strings hashed for
      them have digests that agree in their first 16 bytes. */
  lemma DaysHaveOwnIds(H: HashFn, c: ChainId, d: int, d': int)
    requires d != d'
    ensures HeartbeatId(H, c, d) != HeartbeatId(H, c, d') || ShortCollisionIn(H, HeartbeatInputs(c, {d, d'}))
  {
    hide Decimal;
    var x, y := HeartbeatInput(c, d), HeartbeatInput(c, d');
    var n := |x| - |Decimal(d)|;
    assert x[n..] == Decimal(d) && y[n..] == Decimal(d');
    if Decimal(d) == Decimal(d') {
      DecimalInjective(d, d');
    }
    assert x in HeartbeatInputs(c, {d, d'}) && y in HeartbeatInputs(c, {d, d'});
  }

  /** The event is the chain's heartbeat of the day. */
  predicate IsBeat(H: HashFn, e: EmittedEvent, w: Cursor, now: i64) {
    && e.Chain() == w.chain && e.eventId == HeartbeatId(H, w.chain, DayOf(now)) && e.occurredAt == now && e.nodeId == w.nodeId
    && e.eventType == Ascii("chain.heartbeat") && e.outcome == Ascii("ok")
  }

  /** A quiet chain goes on beating: a writer that remembers nothing of the day but
      other days' heartbeats chains today's, under today's id, or ids collide. */
  lemma NextDayBeats(H: HashFn, w: Cursor, now: i64, stamp: i64, days: set<int>)
    requires DayOf(now) !in days && (w.lastHeartbeat.Some? ==> w.lastHeartbeat.value in days)
    requires forall id | id in w.seen :: exists d :: d in days && id == HeartbeatId(H, w.chain, d)
    ensures
      var (w', r) := Heartbeat(H, w, now, stamp);
      || (r.Some? && r.value.Ok? && IsBeat(H, r.value.value.emitted, w, now) && w'.lastHeartbeat == Some(DayOf(now)))
      || ShortCollisionIn(H, HeartbeatInputs(w.chain, days + {DayOf(now)}))
  {
    hide HeartbeatId, HeartbeatInput, Trim, EventHash;
    var today := DayOf(now);
    var id := HeartbeatId(H, w.chain, today);
    if id in w.seen {
      var d :| d in days && id == HeartbeatId(H, w.chain, d);
      DaysHaveOwnIds(H, w.chain, d, today);
      assert HeartbeatInputs(w.chain, {d, today}) <= HeartbeatInputs(w.chain, days + {today});
    } else {
      var marked := w.(lastHeartbeat := Some(today));
      var e := HeartbeatEvent(H, w, today, now);
      SealTotal(H, Unsealed(marked, e, stamp));
      var event := Sealed(H, Unsealed(marked, e, stamp)).value;
      var full := marked.(head := event.eventHash, nextSeq := Bump(marked.nextSeq));
      TrimKeepsMark(full.(seen := full.seen[e.eventId := marked.nextSeq], seenOrder := full.seenOrder + [e.eventId]));
    }
  }

  // ----- Whether anything is written, told beforehand -----

  /** The writer would chain its heartbeat: the day is not marked, and the event of
      the day is not remembered. */
  predicate BeatDue(H: HashFn, w: Cursor, now: i64) {
    w.lastHeartbeat != Some(DayOf(now)) && HeartbeatId(H, w.chain, DayOf(now)) !in w.seen
  }

  /** Offered a heartbeat at most: the same memory, the day marked perhaps. */
  predicate OfferedOnly(w: Cursor, w': Cursor, now: i64) {
    w'.seen == w.seen && w'.chain == w.chain && (w'.lastHeartbeat == w.lastHeartbeat || w'.lastHeartbeat == Some(DayOf(now)))
  }

  lemma OfferOneWrites(H: HashFn, b: Beat, c: ChainId, now: i64, stamp: i64)
    requires c in b.writers
    ensures
      var b' := OfferOne(H, b, c, now, stamp);
      && (BeatDue(H, b.writers[c], now) <==> |b'.written| == |b.written| + 1)
      && (!BeatDue(H, b.writers[c], now) ==>
            b'.written == b.written && b'.writers == b.writers[c := b'.writers[c]]
            && OfferedOnly(b.writers[c], b'.writers[c], now) && (b'.writers[c].lastHeartbeat == Some(DayOf(now))))
  {
    hide EventHash, Remember, HeartbeatId;
    var w := b.writers[c];
    var marked := w.(lastHeartbeat := Some(DayOf(now)));
    SealTotal(H, Unsealed(marked, HeartbeatEvent(H, w, DayOf(now), now), stamp));
  }

  /** Whether heartbeats write anything can be told before them: they do not
      exactly if no writer offered has one due. */
  lemma {:induction false} WrittenNothingIff(H: HashFn, writers: Writers, order: seq<ChainId>, now: i64, stamps: seq<i64>)
    requires |order| == |stamps|
    ensures
      var b := OfferAll(H, writers, order, now, stamps);
      && (b.written == [] <==> forall c | c in order && c in writers :: !BeatDue(H, writers[c], now))
      && b.writers.Keys == writers.Keys
      && (b.written == [] ==> forall c | c in writers ::
            OfferedOnly(writers[c], b.writers[c], now)
            && (if c in order then b.writers[c].lastHeartbeat == Some(DayOf(now)) else b.writers[c] == writers[c]))
  {
    hide OfferOne, HeartbeatId;
    if order != [] {
      var n := |order| - 1;
      var t, c := order[..n], order[n];
      assert order == t + [c];
      WrittenNothingIff(H, writers, t, now, stamps[..n]);
      var b := OfferAll(H, writers, t, now, stamps[..n]);
      OfferMissing(H, b, c, now, stamps[n]);
      if c in b.writers {
        OfferOneWrites(H, b, c, now, stamps[n]);
        OfferKeys(H, b, c, now, stamps[n]);
      }
    }
  }

  lemma OfferMissing(H: HashFn, b: Beat, c: ChainId, now: i64, stamp: i64)
    ensures c !in b.writers ==> OfferOne(H, b, c, now, stamp) == b
  {
  }

  lemma OfferKeys(H: HashFn, b: Beat, c: ChainId, now: i64, stamp: i64)
    ensures OfferOne(H, b, c, now, stamp).writers.Keys == b.writers.Keys
    ensures |OfferOne(H, b, c, now, stamp).written| >= |b.written|
  {
    hide Heartbeat;
  }
}
