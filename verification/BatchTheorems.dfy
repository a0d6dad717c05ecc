/** What one call of `ingest` does to store, writers and memory. */
module BatchTheorems {
  import opened Wrappers
  import opened Hashing
  import opened Canon
  import opened Events
  import opened Verify
  import opened Cursors
  import opened Batches

  // ----- The whole batch -----

  lemma HasIdGrows(store: Store, chained: seq<AuditEvent>, more: seq<AuditEvent>, c: ChainId, id: EventId)
    requires HasId(RowsWith(store, chained, c), id)
    requires chained <= more && |more| <= |chained| + 1
    ensures HasId(RowsWith(store, more, c), id)
  {
    if chained != more {
      var event := more[|chained|];
      assert more == chained + [event];
      OnlyOneMore(chained, event, c);
      var x :| x in RowsWith(store, chained, c) && x.emitted.eventId == id;
      assert x in RowsWith(store, more, c);
    } else {
      assert more == chained;
    }
  }

  /** Each message so far has its event among its chain's rows, stored or about
      to be. */
  ghost predicate AllThere(store: Store, chained: seq<AuditEvent>, es: seq<EmittedEvent>) {
    forall e | e in es :: HasId(RowsWith(store, chained, e.Chain()), e.eventId)
  }

  lemma {:induction false} TakeAllSound(
    H: HashFn, nodeId: Str, store: Store, writers: Writers, es: seq<EmittedEvent>, ambient: seq<Ambient>)
    requires |es| == |ambient| && Sound(H, store, writers) && Room(store, |es|)
    ensures
      var b := TakeAll(H, nodeId, store, StartBatch(writers), es, ambient);
      && !b.outcome.Failed? && |b.chained| <= |es|
      && (b.outcome.Going? ==> BatchSound(H, store, b) && AllThere(store, b.chained, es))
      && (b.outcome.Deferred? ==> Sound(H, store, b.writers))
    decreases |es|
  {
    hide GoodRows, Stands, TakeOne, BatchSound, HasId, RowsWith, Sound;
    if es == [] {
      StartSound(H, store, writers);
    } else {
      var n := |es| - 1;
      RoomFor(store, |es|, n);
      TakeAllSound(H, nodeId, store, writers, es[..n], ambient[..n]);
      var b := TakeAll(H, nodeId, store, StartBatch(writers), es[..n], ambient[..n]);
      if b.outcome.Going? {
        RoomFor(store, |es|, |b.chained| + 1);
        SoundWithoutWriters(H, store, writers);
        TakeOneSound(H, nodeId, store, b, es[n], ambient[n]);
        var b' := TakeOne(H, nodeId, store, b, es[n], ambient[n]);
        if b'.outcome.Going? {
          forall e | e in es
            ensures HasId(RowsWith(store, b'.chained, e.Chain()), e.eventId)
          {
            if e in es[..n] {
              HasIdGrows(store, b.chained, b'.chained, e.Chain(), e.eventId);
            }
          }
        } else {
          StoppedChained(H, nodeId, store, b, es[n], ambient[n]);
        }
      } else {
        StoppedChained(H, nodeId, store, b, es[n], ambient[n]);
      }
    }
  }

  /** A batch that was not stopped has chained each of its messages or counted it as a
      duplicate. */
  lemma {:induction false} EachCounted(
    H: HashFn, nodeId: Str, store: Store, writers: Writers, es: seq<EmittedEvent>, ambient: seq<Ambient>)
    requires |es| == |ambient|
    ensures var b := TakeAll(H, nodeId, store, StartBatch(writers), es, ambient);
            b.outcome.Going? ==> |b.chained| + b.duplicates == |es|
    decreases |es|
  {
    hide TakeOne;
    if es != [] {
      var n := |es| - 1;
      EachCounted(H, nodeId, store, writers, es[..n], ambient[..n]);
      OneCounted(H, nodeId, store, TakeAll(H, nodeId, store, StartBatch(writers), es[..n], ambient[..n]), es[n], ambient[n]);
    }
  }

  lemma OneCounted(H: HashFn, nodeId: Str, store: Store, b: Batch, e: EmittedEvent, a: Ambient)
    ensures
      var b' := TakeOne(H, nodeId, store, b, e, a);
      b'.outcome.Going? ==> b.outcome.Going? && |b'.chained| + b'.duplicates == |b.chained| + b.duplicates + 1
  {
    hide Append, Resumed, Rewound;
  }

  lemma StoppedChained(H: HashFn, nodeId: Str, store: Store, b: Batch, e: EmittedEvent, a: Ambient)
    ensures var b' := TakeOne(H, nodeId, store, b, e, a);
            && (!b'.outcome.Going? ==> b'.chained == b.chained)
            && (!b.outcome.Going? ==> b' == b)
  {
    hide Append, Rewound, Resumed;
  }

  lemma RoomFor(store: Store, n: nat, m: nat)
    requires Room(store, n) && m <= n
    ensures Room(store, m)
  {
    forall c
      ensures |Of(store, c)| + m < U64_MAX
    {
      assert |Of(store, c)| + n < U64_MAX;
    }
  }

  lemma SoundWithoutWriters(H: HashFn, store: Store, writers: Writers)
    requires Sound(H, store, writers)
    ensures Sound(H, store, map[])
  {
    hide GoodRows, Stands;
  }

  /** The store only ever grows. */
  ghost predicate Extends(store: Store, store': Store) {
    forall c :: Of(store, c) <= Of(store', c)
  }

  /** A call of `ingest` keeps every chain sound and every writer at its stored
      head, whatever the world does.  If it does not hand the batch back, every
      message's event is stored, duplicates included; if it does, the store is
      as it was. */
  lemma IngestSound(
    H: HashFn, nodeId: Str, store: Store, writers: Writers, es: seq<EmittedEvent>, ambient: seq<Ambient>, stored: bool)
    requires |es| == |ambient| && Sound(H, store, writers) && Room(store, |es|)
    ensures
      var b := TakeAll(H, nodeId, store, StartBatch(writers), es, ambient);
      var (store', writers') := Settled(store, b, stored);
      && !b.outcome.Failed?
      && Sound(H, store', writers') && Extends(store, store')
      && (HandedBack(b, stored) ==> store' == store)
      && (!HandedBack(b, stored) ==> forall e | e in es :: HasId(Of(store', e.Chain()), e.eventId))
  {
    hide GoodRows, Stands, BatchSound, HasId, TakeAll;
    TakeAllSound(H, nodeId, store, writers, es, ambient);
    var b := TakeAll(H, nodeId, store, StartBatch(writers), es, ambient);
    if b.outcome.Going? {
      if b.chained != [] && !stored {
        RoomFor(store, |es|, 0);
        RewoundSound(H, store, b);
      } else {
        StoredSound(H, store, b);
        StoredThere(store, b.chained, es);
        assert b.chained == [] ==> StoreAll(store, b.chained) == store;
      }
    }
  }

  lemma StoredSound(H: HashFn, store: Store, b: Batch)
    requires BatchSound(H, store, b)
    ensures Sound(H, StoreAll(store, b.chained), b.writers)
    ensures Extends(store, StoreAll(store, b.chained))
  {
    hide GoodRows, Stands;
    forall c
      ensures GoodRows(H, c, Of(StoreAll(store, b.chained), c))
      ensures c in b.writers ==> Stands(b.writers[c], c, Of(StoreAll(store, b.chained), c))
      ensures Of(store, c) <= Of(StoreAll(store, b.chained), c)
    {
      StoreAllAppends(store, b.chained, c);
      ChainOf(H, store, b, c);
    }
  }

  lemma StoredThere(store: Store, chained: seq<AuditEvent>, es: seq<EmittedEvent>)
    requires AllThere(store, chained, es)
    ensures forall e | e in es :: HasId(Of(StoreAll(store, chained), e.Chain()), e.eventId)
  {
    hide HasId;
    forall e | e in es
      ensures HasId(Of(StoreAll(store, chained), e.Chain()), e.eventId)
    {
      StoreAllAppends(store, chained, e.Chain());
    }
  }

  // ----- What rollback leaves of the memory -----

  function Remembered(writers: Writers, c: ChainId): nat {
    if c in writers then |writers[c].seenOrder| else 0
  }

  /** What is left of a memory after `k` more events and going back over them. */
  function AfterRollback(length: nat, k: nat): nat {
    if length + k <= DEDUPE_WINDOW then length else if k <= DEDUPE_WINDOW then DEDUPE_WINDOW - k else 0
  }

  /** A writer remembers what it did at the start and what this batch added, up to
      the window; one that was not there starts with nothing. */
  ghost predicate MemoryExact(start: Writers, b: Batch) {
    && (forall c | c in start :: c in b.writers)
    && (forall c | c in b.writers :: MemoryIs(start, b, c))
  }

  predicate MemoryIs(start: Writers, b: Batch, c: ChainId)
    requires c in b.writers
  {
    var n := Remembered(start, c) + |Only(b.chained, c)|;
    |b.writers[c].seenOrder| == if n <= DEDUPE_WINDOW then n else DEDUPE_WINDOW
  }

  lemma TouchedMemory(H: HashFn, nodeId: Str, store: Store, start: Writers, b: Batch, c: ChainId)
    requires BatchSound(H, store, b) && MemoryExact(start, b)
    ensures MemoryExact(start, Touched(nodeId, store, b, c))
  {
    hide GoodRows, Stands, HeadRow, BatchSound, RowsWith, HeadOf;
    ChainOf(H, store, b, c);
    var t := Touched(nodeId, store, b, c);
    forall x | x in t.writers
      ensures MemoryIs(start, t, x)
    {
      if x in b.writers {
        assert MemoryIs(start, b, x);
      }
    }
  }

  lemma AppendedMemory(H: HashFn, store: Store, start: Writers, t: Batch, e: EmittedEvent, now: i64)
    requires BatchSound(H, store, t) && e.Chain() in t.writers && Room(store, |t.chained| + 1)
    requires MemoryExact(start, t) && Append(H, t.writers[e.Chain()], e, now).Ok?
    ensures
      var (w, event) := Append(H, t.writers[e.Chain()], e, now).value;
      MemoryExact(start, t.(writers := t.writers[e.Chain() := w], chained := t.chained + [event]))
  {
    hide GoodRows, Stands, Append, BatchSound, RowsWith, MemoryExact;
    var c := e.Chain();
    ChainOf(H, store, t, c);
    OnlyBounded(t.chained, c);
    assert |Of(store, c)| + (|t.chained| + 1) < U64_MAX;
    RowsCount(store, t.chained, c);
    AppendStandsMore(H, t.writers[c], c, RowsWith(store, t.chained, c), e, now);
    var (w, event) := Append(H, t.writers[c], e, now).value;
    OneMoreRemembered(start, t, w, event);
  }

  lemma AppendStandsMore(H: HashFn, w: Cursor, c: ChainId, rows: seq<AuditEvent>, e: EmittedEvent, now: i64)
    requires GoodRows(H, c, rows) && Stands(w, c, rows) && c == e.Chain() && |rows| + 1 < U64_MAX && Append(H, w, e, now).Ok?
    ensures
      var (w', event) := Append(H, w, e, now).value;
      && event.emitted == e && |w.seenOrder| <= DEDUPE_WINDOW
      && |w'.seenOrder| == if |w.seenOrder| == DEDUPE_WINDOW then DEDUPE_WINDOW else |w.seenOrder| + 1
  {
    hide GoodRows, Stands, ChainEvent;
    WindowHolds(w, c, rows);
    AppendStands(H, w, c, rows, e, now);
  }

  lemma OneMoreRemembered(start: Writers, t: Batch, w: Cursor, event: AuditEvent)
    requires MemoryExact(start, t) && event.emitted.Chain() in t.writers
    requires
      var n := |t.writers[event.emitted.Chain()].seenOrder|;
      n <= DEDUPE_WINDOW && |w.seenOrder| == if n == DEDUPE_WINDOW then DEDUPE_WINDOW else n + 1
    ensures MemoryExact(start, t.(writers := t.writers[event.emitted.Chain() := w], chained := t.chained + [event]))
  {
    hide Only;
    var c := event.emitted.Chain();
    var b := t.(writers := t.writers[c := w], chained := t.chained + [event]);
    forall x | x in b.writers
      ensures MemoryIs(start, b, x)
    {
      OnlyOneMore(t.chained, event, x);
      assert MemoryIs(start, t, x);
    }
  }

  lemma RowsCount(store: Store, chained: seq<AuditEvent>, c: ChainId)
    ensures |RowsWith(store, chained, c)| == |Of(store, c)| + |Only(chained, c)|
  {
  }

  lemma TakeOneMemory(H: HashFn, nodeId: Str, store: Store, start: Writers, b: Batch, e: EmittedEvent, a: Ambient)
    requires b.outcome.Going? && BatchSound(H, store, b) && Sound(H, store, map[]) && Room(store, |b.chained| + 1)
    requires MemoryExact(start, b) && TakeOne(H, nodeId, store, b, e, a).outcome.Going?
    ensures MemoryExact(start, TakeOne(H, nodeId, store, b, e, a))
  {
    hide GoodRows, Stands, Append, BatchSound, Resumed, HeadRow, MemoryIs, Sound;
    RoomLess(store, |b.chained| + 1);
    var c := e.Chain();
    TouchedSound(H, nodeId, store, b, c);
    TouchedMemory(H, nodeId, store, start, b, c);
    var t := Touched(nodeId, store, b, c);
    if Append(H, t.writers[c], e, a.now).Ok? {
      AppendedMemory(H, store, start, t, e, a.now);
      var w := Append(H, t.writers[c], e, a.now).value.0;
      assert t.writers[c := w] == b.writers[c := w];
    } else {
      MemoryWhateverCounts(start, t, b.duplicates + 1);
    }
  }

  lemma MemoryWhateverCounts(start: Writers, b: Batch, duplicates: nat)
    requires MemoryExact(start, b)
    ensures MemoryExact(start, b.(duplicates := duplicates))
  {
    forall c | c in b.writers
      ensures MemoryIs(start, b.(duplicates := duplicates), c)
    {
      assert MemoryIs(start, b, c);
    }
  }

  /** What every writer remembers once its batch was undone. */
  ghost predicate MemoryBack(start: Writers, chained: seq<AuditEvent>, back: Writers) {
    && (forall c | c in start :: c in back)
    && (forall c | c in back :: |back[c].seenOrder| == AfterRollback(Remembered(start, c), |Only(chained, c)|))
  }

  lemma {:induction false} TakeAllMemory(
    H: HashFn, nodeId: Str, store: Store, writers: Writers, es: seq<EmittedEvent>, ambient: seq<Ambient>)
    requires |es| == |ambient| && Sound(H, store, writers) && Room(store, |es|)
    ensures
      var b := TakeAll(H, nodeId, store, StartBatch(writers), es, ambient);
      && (b.outcome.Going? ==> MemoryExact(writers, b))
      && (b.outcome.Deferred? ==> MemoryBack(writers, b.chained, b.writers))
    decreases |es|
  {
    hide GoodRows, Stands, TakeOne, BatchSound, HasId, Sound, MemoryExact, MemoryBack;
    if es != [] {
      var n := |es| - 1;
      RoomFor(store, |es|, n);
      TakeAllMemory(H, nodeId, store, writers, es[..n], ambient[..n]);
      TakeAllSound(H, nodeId, store, writers, es[..n], ambient[..n]);
      var b := TakeAll(H, nodeId, store, StartBatch(writers), es[..n], ambient[..n]);
      var b' := TakeOne(H, nodeId, store, b, es[n], ambient[n]);
      RoomFor(store, |es|, |b.chained| + 1);
      SoundWithoutWriters(H, store, writers);
      StoppedChained(H, nodeId, store, b, es[n], ambient[n]);
      if b.outcome.Going? && b'.outcome.Going? {
        TakeOneMemory(H, nodeId, store, writers, b, es[n], ambient[n]);
      } else if b.outcome.Going? && b'.outcome.Deferred? {
        DeferredRewinds(H, nodeId, store, b, es[n], ambient[n]);
        RoomFor(store, |es|, 0);
        RewoundMemory(H, store, writers, b);
      }
    } else {
      StartMemory(H, store, writers);
    }
  }

  lemma StartMemory(H: HashFn, store: Store, writers: Writers)
    requires Sound(H, store, writers)
    ensures MemoryExact(writers, StartBatch(writers))
  {
    hide GoodRows, IndexExact, HeadOf;
  }

  lemma DeferredRewinds(H: HashFn, nodeId: Str, store: Store, b: Batch, e: EmittedEvent, a: Ambient)
    requires b.outcome.Going? && TakeOne(H, nodeId, store, b, e, a).outcome.Deferred?
    ensures TakeOne(H, nodeId, store, b, e, a).writers == Rewound(b.writers, b.rollback)
  {
    hide Append, Resumed, Rewound;
  }

  lemma RewoundMemory(H: HashFn, store: Store, start: Writers, b: Batch)
    requires BatchSound(H, store, b) && MemoryExact(start, b) && Room(store, 0)
    ensures MemoryBack(start, b.chained, Rewound(b.writers, b.rollback))
  {
    hide GoodRows, Stands, RewindTo, BatchSound;
    var back := Rewound(b.writers, b.rollback);
    forall c | c in back
      ensures |back[c].seenOrder| == AfterRollback(Remembered(start, c), |Only(b.chained, c)|)
    {
      ChainOf(H, store, b, c);
      assert MemoryIs(start, b, c);
      assert |Of(store, c)| + 0 < U64_MAX;
      if c in b.rollback {
        RewindStands(b.writers[c], c, Of(store, c), Only(b.chained, c));
      }
    }
  }

  lemma WindowHolds(w: Cursor, c: ChainId, rows: seq<AuditEvent>)
    requires Stands(w, c, rows)
    ensures |w.seenOrder| <= DEDUPE_WINDOW && |w.seenOrder| <= |rows|
  {
  }

  lemma ShorterTailIsSuffix(w: Cursor, w': Cursor, c: ChainId, rows: seq<AuditEvent>)
    requires Stands(w, c, rows) && Stands(w', c, rows) && |w'.seenOrder| <= |w.seenOrder|
    ensures w'.nextSeq == w.nextSeq && w'.head == w.head
    ensures w'.seenOrder == w.seenOrder[|w.seenOrder| - |w'.seenOrder|..]
  {
    var d := |w.seenOrder| - |w'.seenOrder|;
    forall i | 0 <= i < |w'.seenOrder|
      ensures w'.seenOrder[i] == w.seenOrder[d..][i]
    {
      assert w.seenOrder[d + i] == rows[|rows| - |w.seenOrder| + (d + i)].emitted.eventId;
    }
  }

  /** A batch handed back has changed nothing that matters: the store is as it
      was, every writer that was there stands where it stood, and remembers a
      suffix of what it remembered: all of it, unless the events undone had pushed
      some of it out of the window.  So none of the batch is taken for a duplicate
      that was not one before. */
  lemma HandedBackRestores(
    H: HashFn, nodeId: Str, store: Store, writers: Writers, es: seq<EmittedEvent>, ambient: seq<Ambient>, stored: bool, c: ChainId)
    requires |es| == |ambient| && Sound(H, store, writers) && Room(store, |es|) && c in writers
    requires HandedBack(TakeAll(H, nodeId, store, StartBatch(writers), es, ambient), stored)
    ensures
      var b := TakeAll(H, nodeId, store, StartBatch(writers), es, ambient);
      var (store', writers') := Settled(store, b, stored);
      && store' == store && c in writers'
      && writers'[c].nextSeq == writers[c].nextSeq && writers'[c].head == writers[c].head
      && |writers'[c].seenOrder| == AfterRollback(|writers[c].seenOrder|, |Only(b.chained, c)|) <= |writers[c].seenOrder|
      && writers'[c].seenOrder == writers[c].seenOrder[|writers[c].seenOrder| - |writers'[c].seenOrder|..]
      && forall id :: id in writers'[c].seen ==> id in writers[c].seen
  {
    hide GoodRows, Stands, BatchSound, HasId, TakeAll, Settled, StoreAll;
    IngestSound(H, nodeId, store, writers, es, ambient, stored);
    HandedBackMemory(H, nodeId, store, writers, es, ambient, stored);
    var b := TakeAll(H, nodeId, store, StartBatch(writers), es, ambient);
    var writers' := Settled(store, b, stored).1;
    assert c in writers' && Stands(writers[c], c, Of(store, c)) && Stands(writers'[c], c, Of(store, c));
    WindowHolds(writers[c], c, Of(store, c));
    ShorterTailIsSuffix(writers[c], writers'[c], c, Of(store, c));
    forall id | id in writers'[c].seen
      ensures id in writers[c].seen
    {
      SuffixSeen(writers[c], writers'[c], c, Of(store, c), id);
    }
  }

  lemma SuffixSeen(w: Cursor, w': Cursor, c: ChainId, rows: seq<AuditEvent>, id: EventId)
    requires Stands(w, c, rows) && Stands(w', c, rows) && |w'.seenOrder| <= |w.seenOrder| && id in w'.seen
    requires w'.seenOrder == w.seenOrder[|w.seenOrder| - |w'.seenOrder|..]
    ensures id in w.seen
  {
    hide RemembersTail, HeadOf;
    assert id in w'.seenOrder;
  }

  lemma HandedBackMemory(
    H: HashFn, nodeId: Str, store: Store, writers: Writers, es: seq<EmittedEvent>, ambient: seq<Ambient>, stored: bool)
    requires |es| == |ambient| && Sound(H, store, writers) && Room(store, |es|)
    requires HandedBack(TakeAll(H, nodeId, store, StartBatch(writers), es, ambient), stored)
    ensures
      var b := TakeAll(H, nodeId, store, StartBatch(writers), es, ambient);
      MemoryBack(writers, b.chained, Settled(store, b, stored).1)
  {
    hide GoodRows, Stands, BatchSound, HasId, TakeAll, Sound, Rewound, MemoryExact, MemoryBack, StoreAll;
    TakeAllMemory(H, nodeId, store, writers, es, ambient);
    TakeAllSound(H, nodeId, store, writers, es, ambient);
    var b := TakeAll(H, nodeId, store, StartBatch(writers), es, ambient);
    if b.outcome.Going? {
      RoomFor(store, |es|, 0);
      RewoundMemory(H, store, writers, b);
    }
  }
}
