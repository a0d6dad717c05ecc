/**
 * Ingesting one batch, as a function: what each message does to the writers,
 * what is stored, and what is undone.  `Pipeline.Ingester` is proved to do it.
 */
module Batches {
  import opened Wrappers
  import opened Hashing
  import opened Canon
  import opened Events
  import opened Verify
  import opened Cursors

  type Store = map<ChainId, seq<AuditEvent>>

  type Writers = map<ChainId, Cursor>

  type Rollback = map<ChainId, (u64, Hash32)>

  /** What the world chooses for one message: whether the store answers a head
      query made for it, and the time of day. */
  datatype Ambient = Ambient(headUp: bool, now: i64)

  datatype Outcome = Going | Deferred | Failed(reason: IngestError)

  datatype Batch = Batch(
    writers: Writers, rollback: Rollback, chained: seq<AuditEvent>, duplicates: nat, outcome: Outcome)

  function Of(store: Store, chain: ChainId): seq<AuditEvent> {
    if chain in store then store[chain] else []
  }

  /** The last row of a chain, from one query. */
  function HeadRow(rows: seq<AuditEvent>): Option<(u64, Hash32)> {
    if rows == [] then None else Some((rows[|rows| - 1].seqNo, rows[|rows| - 1].eventHash))
  }

  function Resumed(chain: ChainId, nodeId: Str, head: Option<(u64, Hash32)>): Cursor {
    match head
    case None => Fresh(chain, nodeId)
    case Some((seqNo, hash)) => Resume(chain, nodeId, seqNo, hash)
  }

  /** Every touched writer back where it stood. */
  function Rewound(writers: Writers, rollback: Rollback): (r: Writers)
    ensures r.Keys == writers.Keys
  {
    map c | c in writers :: if c in rollback then RewindTo(writers[c], rollback[c].0, rollback[c].1) else writers[c]
  }

  function TakeOne(H: HashFn, nodeId: Str, store: Store, b: Batch, e: EmittedEvent, a: Ambient): Batch {
    if !b.outcome.Going? then b
    else if e.Chain() !in b.writers && !a.headUp then
      b.(writers := Rewound(b.writers, b.rollback), outcome := Deferred)
    else
      var c := e.Chain();
      var w := if c in b.writers then b.writers[c] else Resumed(c, nodeId, HeadRow(Of(store, c)));
      var rollback := if c in b.rollback then b.rollback else b.rollback[c := (w.nextSeq, w.head)];
      var touched := b.(writers := b.writers[c := w], rollback := rollback);
      match Append(H, w, e, a.now)
      case Ok((w', event)) => touched.(writers := b.writers[c := w'], chained := b.chained + [event])
      case Err(Duplicate(_, _)) => touched.(duplicates := b.duplicates + 1)
      case Err(x) => touched.(outcome := Failed(x))
  }

  function TakeAll(H: HashFn, nodeId: Str, store: Store, b: Batch, es: seq<EmittedEvent>, ambient: seq<Ambient>): Batch
    requires |es| == |ambient|
  {
    if es == [] then b
    else
      var n := |es| - 1;
      TakeOne(H, nodeId, store, TakeAll(H, nodeId, store, b, es[..n], ambient[..n]), es[n], ambient[n])
  }

  function StartBatch(writers: Writers): Batch {
    Batch(writers, map[], [], 0, Going)
  }

  /** Rows appended one by one, each to its own chain. */
  function StoreAll(store: Store, es: seq<AuditEvent>): Store {
    if es == [] then store
    else
      var e := es[|es| - 1];
      var before := StoreAll(store, es[..|es| - 1]);
      before[e.emitted.Chain() := Of(before, e.emitted.Chain()) + [e]]
  }

  /** Store and writers once the batch is over; `stored` is whether the store
      took the insert, if one was tried. */
  function Settled(store: Store, b: Batch, stored: bool): (Store, Writers) {
    if !b.outcome.Going? || b.chained == [] then (store, b.writers)
    else if stored then (StoreAll(store, b.chained), b.writers)
    else (store, Rewound(b.writers, b.rollback))
  }

  /** Whether the batch is handed back for redelivery. */
  predicate HandedBack(b: Batch, stored: bool) {
    b.outcome.Deferred? || (b.outcome.Going? && b.chained != [] && !stored)
  }

  // ----- The invariant between calls -----

  /** Every chain's rows are complete and verify, and every live writer stands
      at its chain's stored head. */
  ghost predicate Sound(H: HashFn, store: Store, writers: Writers) {
    && (forall c :: GoodRows(H, c, Of(store, c)))
    && (forall c | c in writers :: Stands(writers[c], c, Of(store, c)))
  }

  /** No chain comes near the last position a u64 can hold. */
  ghost predicate Room(store: Store, n: nat) {
    forall c :: |Of(store, c)| + n < U64_MAX
  }

  /** The events of one chain, in order. */
  function Only(es: seq<AuditEvent>, chain: ChainId): seq<AuditEvent> {
    if es == [] then []
    else
      Only(es[..|es| - 1], chain) + if es[|es| - 1].emitted.Chain() == chain then [es[|es| - 1]] else []
  }

  /** A chain's rows if the batch so far were stored. */
  function RowsWith(store: Store, chained: seq<AuditEvent>, chain: ChainId): seq<AuditEvent> {
    Of(store, chain) + Only(chained, chain)
  }

  /** One chain during a batch: its writer stands at the head of its rows with
      the batch's events added, and its rollback entry at the stored head. */
  ghost predicate ChainSound(H: HashFn, store: Store, b: Batch, c: ChainId) {
    && GoodRows(H, c, RowsWith(store, b.chained, c))
    && (c in b.writers ==> Stands(b.writers[c], c, RowsWith(store, b.chained, c)))
    && (c !in b.rollback ==> Only(b.chained, c) == [])
    && (c in b.rollback ==> c in b.writers && b.rollback[c] == (|Of(store, c)| + 1, HeadOf(Of(store, c), GENESIS)))
  }

  ghost predicate BatchSound(H: HashFn, store: Store, b: Batch) {
    forall c :: ChainSound(H, store, b, c)
  }

  /** The two batches look the same to a chain. */
  predicate SameFor(b: Batch, b': Batch, c: ChainId) {
    && (c in b.writers <==> c in b'.writers) && (c in b.writers ==> b.writers[c] == b'.writers[c])
    && (c in b.rollback <==> c in b'.rollback) && (c in b.rollback ==> b.rollback[c] == b'.rollback[c])
    && Only(b.chained, c) == Only(b'.chained, c)
  }

  lemma SameForSound(H: HashFn, store: Store, b: Batch, b': Batch, c: ChainId)
    requires ChainSound(H, store, b, c) && SameFor(b, b', c)
    ensures ChainSound(H, store, b', c)
  {
    hide GoodRows, Stands, HeadOf;
  }

  lemma OnlyOneMore(es: seq<AuditEvent>, e: AuditEvent, chain: ChainId)
    ensures Only(es + [e], chain) == Only(es, chain) + if e.emitted.Chain() == chain then [e] else []
  {
    assert (es + [e])[..|es|] == es;
  }

  lemma {:induction false} OnlyBounded(es: seq<AuditEvent>, chain: ChainId)
    ensures |Only(es, chain)| <= |es|
  {
    if es != [] {
      OnlyBounded(es[..|es| - 1], chain);
    }
  }

  lemma {:induction false} StoreAllAppends(store: Store, es: seq<AuditEvent>, chain: ChainId)
    ensures Of(StoreAll(store, es), chain) == RowsWith(store, es, chain)
  {
    if es != [] {
      StoreAllAppends(store, es[..|es| - 1], chain);
    }
  }

  lemma StartSound(H: HashFn, store: Store, writers: Writers)
    requires Sound(H, store, writers)
    ensures BatchSound(H, store, StartBatch(writers))
  {
    hide GoodRows, Stands;
    forall c
      ensures ChainSound(H, store, StartBatch(writers), c)
    {
      assert Only([], c) == [];
      assert RowsWith(store, [], c) == Of(store, c);
    }
  }

  /** Undoing a batch leaves the writers where the store is. */
  lemma RewoundSound(H: HashFn, store: Store, b: Batch)
    requires BatchSound(H, store, b) && Sound(H, store, map[]) && Room(store, 0)
    ensures Sound(H, store, Rewound(b.writers, b.rollback))
  {
    hide GoodRows, Stands, RewindTo, HeadOf;
    var back := Rewound(b.writers, b.rollback);
    forall c | c in back
      ensures Stands(back[c], c, Of(store, c))
    {
      assert ChainSound(H, store, b, c);
      if c in b.rollback {
        RewindStands(b.writers[c], c, Of(store, c), Only(b.chained, c));
      } else {
        assert RowsWith(store, b.chained, c) == Of(store, c);
      }
    }
  }

  /** The batch with the writer a message needs in place. */
  function Touched(nodeId: Str, store: Store, b: Batch, c: ChainId): Batch {
    var w := if c in b.writers then b.writers[c] else Resumed(c, nodeId, HeadRow(Of(store, c)));
    var rollback := if c in b.rollback then b.rollback else b.rollback[c := (w.nextSeq, w.head)];
    b.(writers := b.writers[c := w], rollback := rollback)
  }

  lemma TouchedSound(H: HashFn, nodeId: Str, store: Store, b: Batch, c: ChainId)
    requires BatchSound(H, store, b) && Sound(H, store, map[]) && Room(store, 0)
    ensures BatchSound(H, store, Touched(nodeId, store, b, c))
    ensures c in Touched(nodeId, store, b, c).rollback
  {
    hide GoodRows, Resumed, HeadRow;
    var t := Touched(nodeId, store, b, c);
    assert ChainSound(H, store, b, c);
    TouchedChainSound(H, nodeId, store, b, c);
    hide ChainSound;
    forall x
      ensures ChainSound(H, store, t, x)
    {
      if x != c {
        assert ChainSound(H, store, b, x);
        SameForSound(H, store, b, t, x);
      }
    }
  }

  lemma TouchedChainSound(H: HashFn, nodeId: Str, store: Store, b: Batch, c: ChainId)
    requires ChainSound(H, store, b, c) && GoodRows(H, c, Of(store, c)) && Room(store, 0)
    ensures ChainSound(H, store, Touched(nodeId, store, b, c), c)
  {
    hide GoodRows, Stands, Resumed, HeadRow, HeadOf;
    if c !in b.rollback {
      assert RowsWith(store, b.chained, c) == Of(store, c);
      if c !in b.writers {
        assert |Of(store, c)| + 0 < U64_MAX;
        ResumedStands(H, c, nodeId, Of(store, c));
      }
      StandsAt(Touched(nodeId, store, b, c).writers[c], c, Of(store, c));
    }
  }

  lemma StandsAt(w: Cursor, c: ChainId, rows: seq<AuditEvent>)
    requires Stands(w, c, rows)
    ensures w.nextSeq == |rows| + 1 && w.head == HeadOf(rows, GENESIS)
  {
  }

  lemma ResumedStands(H: HashFn, c: ChainId, nodeId: Str, rows: seq<AuditEvent>)
    requires GoodRows(H, c, rows) && |rows| < U64_MAX
    ensures Stands(Resumed(c, nodeId, HeadRow(rows)), c, rows)
  {
    hide Stands, GoodRows;
    ResumeStands(H, c, nodeId, rows);
  }

  /** A row of the chain carries this id. */
  ghost predicate HasId(rows: seq<AuditEvent>, id: EventId) {
    exists x :: x in rows && x.emitted.eventId == id
  }

  /** Taking one more message cannot fail, and keeps the batch sound; if the
      store does not answer for a new chain, everything is back in place. */
  lemma TakeOneSound(H: HashFn, nodeId: Str, store: Store, b: Batch, e: EmittedEvent, a: Ambient)
    requires b.outcome.Going? && BatchSound(H, store, b) && Sound(H, store, map[]) && Room(store, |b.chained| + 1)
    ensures
      var b' := TakeOne(H, nodeId, store, b, e, a);
      && !b'.outcome.Failed?
      && (b'.outcome.Going? ==>
            && BatchSound(H, store, b') && b.chained <= b'.chained && |b'.chained| <= |b.chained| + 1
            && HasId(RowsWith(store, b'.chained, e.Chain()), e.eventId))
      && (b'.outcome.Deferred? ==> Sound(H, store, b'.writers))
  {
    hide GoodRows, Stands, RewindTo, Append, BatchSound, HasId, RowsWith, Rewound, Sound;
    var c := e.Chain();
    RoomLess(store, |b.chained| + 1);
    if c !in b.writers && !a.headUp {
      RewoundSound(H, store, b);
    } else {
      TouchedSound(H, nodeId, store, b, c);
      var t := Touched(nodeId, store, b, c);
      assert t.chained == b.chained && c in t.writers;
      ChainedSound(H, store, t, e, a.now);
      match Append(H, t.writers[c], e, a.now) {
        case Ok((w', event)) => assert t.writers[c := w'] == b.writers[c := w'];
        case Err(x) => SoundWhateverCounts(H, store, t, b.duplicates + 1);
      }
    }
  }

  lemma RoomLess(store: Store, n: nat)
    requires Room(store, n)
    ensures Room(store, 0)
  {
    forall c
      ensures |Of(store, c)| + 0 < U64_MAX
    {
      assert |Of(store, c)| + n < U64_MAX;
    }
  }

  lemma SoundWhateverCounts(H: HashFn, store: Store, b: Batch, duplicates: nat)
    requires BatchSound(H, store, b)
    ensures BatchSound(H, store, b.(duplicates := duplicates))
  {
    hide ChainSound;
    forall c
      ensures ChainSound(H, store, b.(duplicates := duplicates), c)
    {
      assert ChainSound(H, store, b, c);
      SameForSound(H, store, b, b.(duplicates := duplicates), c);
    }
  }

  lemma ChainedSound(H: HashFn, store: Store, t: Batch, e: EmittedEvent, now: i64)
    requires BatchSound(H, store, t) && Room(store, |t.chained| + 1)
    requires e.Chain() in t.writers && e.Chain() in t.rollback
    ensures
      var c, w := e.Chain(), t.writers[e.Chain()];
      match Append(H, w, e, now)
      case Ok((w', event)) =>
        && BatchSound(H, store, t.(writers := t.writers[c := w'], chained := t.chained + [event]))
        && HasId(RowsWith(store, t.chained + [event], c), e.eventId)
      case Err(x) => x.Duplicate? && HasId(RowsWith(store, t.chained, c), e.eventId)
  {
    hide GoodRows, Stands, ChainEvent, BatchSound;
    var c := e.Chain();
    var w, rows := t.writers[c], RowsWith(store, t.chained, c);
    assert ChainSound(H, store, t, c) by {
      ChainOf(H, store, t, c);
    }
    if e.eventId in w.seen {
      RememberedIsARow(w, c, rows, e.eventId);
    } else {
      OnlyBounded(t.chained, c);
      assert |Of(store, c)| + (|t.chained| + 1) < U64_MAX;
      AppendStands(H, w, c, rows, e, now);
      var (w', event) := Append(H, w, e, now).value;
      AppendedSound(H, store, t, w', event);
      OnlyOneMore(t.chained, event, c);
      assert RowsWith(store, t.chained + [event], c) == rows + [event];
      assert event in rows + [event];
    }
  }

  lemma ChainOf(H: HashFn, store: Store, b: Batch, c: ChainId)
    requires BatchSound(H, store, b)
    ensures ChainSound(H, store, b, c)
  {
    hide ChainSound;
  }

  lemma AppendedSound(H: HashFn, store: Store, t: Batch, w: Cursor, event: AuditEvent)
    requires BatchSound(H, store, t) && event.emitted.Chain() in t.rollback
    requires
      var c := event.emitted.Chain();
      var rows := RowsWith(store, t.chained, c);
      GoodRows(H, c, rows + [event]) && Stands(w, c, rows + [event])
    ensures BatchSound(H, store, t.(writers := t.writers[event.emitted.Chain() := w], chained := t.chained + [event]))
  {
    hide GoodRows, Stands, HeadOf, ChainSound;
    var c := event.emitted.Chain();
    var b := t.(writers := t.writers[c := w], chained := t.chained + [event]);
    forall x
      ensures ChainSound(H, store, b, x)
    {
      OnlyOneMore(t.chained, event, x);
      ChainOf(H, store, t, x);
      if x == c {
        AppendedChainSound(H, store, t, w, event);
      } else {
        SameForSound(H, store, t, b, x);
      }
    }
  }

  lemma AppendedChainSound(H: HashFn, store: Store, t: Batch, w: Cursor, event: AuditEvent)
    requires ChainSound(H, store, t, event.emitted.Chain()) && event.emitted.Chain() in t.rollback
    requires
      var c := event.emitted.Chain();
      var rows := RowsWith(store, t.chained, c);
      GoodRows(H, c, rows + [event]) && Stands(w, c, rows + [event])
    ensures
      var b := t.(writers := t.writers[event.emitted.Chain() := w], chained := t.chained + [event]);
      ChainSound(H, store, b, event.emitted.Chain())
  {
    hide GoodRows, Stands, HeadOf;
    var c := event.emitted.Chain();
    OnlyOneMore(t.chained, event, c);
    assert RowsWith(store, t.chained + [event], c) == RowsWith(store, t.chained, c) + [event];
  }
}
