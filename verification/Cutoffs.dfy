/**
 * A pull dropped midway.  The consumer's loop races the pull against the
 * heartbeat tick and drops it when the tick comes first.  What the batch has
 * done to the writers stays, the rollback map is gone, and nothing is rewound.
 */
module Cutoffs {
  import opened Wrappers
  import opened Hashing
  import opened Canon
  import opened Events
  import opened Chain
  import opened Verify
  import opened Cursors
  import opened Batches
  import opened BatchTheorems
  import opened Heartbeats

  /** What was chained and will not be stored. */
  function Stranded(b: Batch, landed: bool): seq<AuditEvent> {
    if b.outcome.Going? && !landed then b.chained else []
  }

  /** Store and writers when the call is dropped with the batch as it is; `landed`
      is whether its insert got through. */
  function CutAt(store: Store, b: Batch, landed: bool): (Store, Writers) {
    (if b.outcome.Going? && landed then StoreAll(store, b.chained) else store, b.writers)
  }

  /** A live writer remembers the event. */
  predicate Known(writers: Writers, e: EmittedEvent) {
    e.Chain() in writers && e.eventId in writers[e.Chain()].seen
  }

  /** An event no writer remembers is always chained. */
  lemma UnknownIsChained(H: HashFn, nodeId: Str, store: Store, b: Batch, e: EmittedEvent, a: Ambient)
    requires b.outcome.Going?
    ensures
      var b' := TakeOne(H, nodeId, store, b, e, a);
      b'.outcome.Going? ==>
        && |b'.chained| == |b.chained| + (if Known(b.writers, e) then 0 else 1)
        && (Known(b.writers, e) ==> b'.writers == b.writers)
  {
    hide ChainEvent, HeadRow, Rewound;
    var c := e.Chain();
    if c in b.writers || a.headUp {
      var w := if c in b.writers then b.writers[c] else Resumed(c, nodeId, HeadRow(Of(store, c)));
      ChainingSucceeds(H, w, e, a.now);
      if Known(b.writers, e) {
        assert b.writers[c := w] == b.writers;
      }
    }
  }

  lemma ChainingSucceeds(H: HashFn, w: Cursor, e: EmittedEvent, now: i64)
    ensures ChainEvent(H, w, e, now).Ok?
  {
    hide EventHash, Remember;
    SealTotal(H, Unsealed(w, e, now));
  }

  /** Whether a batch that got through chained anything can be told before it: it
      did not exactly if live writers remembered every event of it. */
  lemma {:induction false} ChainedNothingIff(
    H: HashFn, nodeId: Str, store: Store, writers: Writers, taken: seq<EmittedEvent>, ambient: seq<Ambient>)
    requires |taken| == |ambient|
    ensures
      var b := TakeAll(H, nodeId, store, StartBatch(writers), taken, ambient);
      b.outcome.Going? ==>
        && (b.chained == [] <==> forall e | e in taken :: Known(writers, e))
        && (b.chained == [] ==> b.writers == writers)
    decreases |taken|
  {
    hide TakeOne, Known;
    if taken != [] {
      var n := |taken| - 1;
      var t, e := taken[..n], taken[n];
      assert taken == t + [e];
      ChainedNothingIff(H, nodeId, store, writers, t, ambient[..n]);
      var b := TakeAll(H, nodeId, store, StartBatch(writers), t, ambient[..n]);
      StoppedChained(H, nodeId, store, b, e, ambient[n]);
      if b.outcome.Going? {
        UnknownIsChained(H, nodeId, store, b, e, ambient[n]);
      }
    }
  }

  /** The store answers for the chain of message `i`, or need not be asked. */
  ghost predicate Answered(writers: Writers, taken: seq<EmittedEvent>, ambient: seq<Ambient>, i: nat)
    requires i < |taken| == |ambient|
  {
    ambient[i].headUp || taken[i].Chain() in writers || exists j :: 0 <= j < i && taken[j].Chain() == taken[i].Chain()
  }

  /** Whether a batch is deferred can be told before it too: it is not exactly if
      the store answers for each chain it has to be asked about. */
  lemma {:induction false} NotDeferredIff(
    H: HashFn, nodeId: Str, store: Store, writers: Writers, taken: seq<EmittedEvent>, ambient: seq<Ambient>)
    requires |taken| == |ambient|
    ensures
      var b := TakeAll(H, nodeId, store, StartBatch(writers), taken, ambient);
      && !b.outcome.Failed?
      && (b.outcome.Going? <==> forall i :: 0 <= i < |taken| ==> Answered(writers, taken, ambient, i))
      && (b.outcome.Going? ==> forall c :: c in b.writers <==> c in writers || exists i :: 0 <= i < |taken| && taken[i].Chain() == c)
    decreases |taken|
  {
    hide TakeOne;
    if taken != [] {
      var n := |taken| - 1;
      var t, u := taken[..n], ambient[..n];
      NotDeferredIff(H, nodeId, store, writers, t, u);
      var b := TakeAll(H, nodeId, store, StartBatch(writers), t, u);
      StoppedChained(H, nodeId, store, b, taken[n], ambient[n]);
      forall i | 0 <= i < n
        ensures Answered(writers, t, u, i) <==> Answered(writers, taken, ambient, i)
      {
        assert forall j :: 0 <= j <= i ==> t[j] == taken[j];
      }
      if b.outcome.Going? {
        AskedOnce(H, nodeId, store, b, taken[n], ambient[n]);
        assert Answered(writers, taken, ambient, n) <==> ambient[n].headUp || taken[n].Chain() in b.writers by {
          assert forall j :: 0 <= j < n ==> t[j] == taken[j];
        }
      }
    }
  }

  lemma AskedOnce(H: HashFn, nodeId: Str, store: Store, b: Batch, e: EmittedEvent, a: Ambient)
    requires b.outcome.Going?
    ensures
      var b' := TakeOne(H, nodeId, store, b, e, a);
      && !b'.outcome.Failed?
      && (b'.outcome.Going? <==> a.headUp || e.Chain() in b.writers)
      && (b'.outcome.Going? ==> b'.writers.Keys == b.writers.Keys + {e.Chain()})
  {
    hide ChainEvent, HeadRow, Rewound;
    var c := e.Chain();
    ChainingSucceeds(H, if c in b.writers then b.writers[c] else Resumed(c, nodeId, HeadRow(Of(store, c))), e, a.now);
  }

  lemma StrandedAhead(H: HashFn, store: Store, b: Batch)
    requires BatchSound(H, store, b) && b.chained != []
    ensures !Sound(H, store, b.writers)
  {
    hide GoodRows, HeadOf, RemembersTail, IndexExact;
    var c := b.chained[|b.chained| - 1].emitted.Chain();
    assert Only(b.chained, c) != [];
    ChainOf(H, store, b, c);
  }

  /** Dropping a pull keeps the invariant exactly if nothing was chained that is
      not stored: if the insert got through, if every message was a duplicate, or
      if the batch was handed back before.  The rows are good either way. */
  lemma CutSoundIff(
    H: HashFn, nodeId: Str, store: Store, writers: Writers, taken: seq<EmittedEvent>, ambient: seq<Ambient>, landed: bool)
    requires |taken| == |ambient| && Sound(H, store, writers) && Room(store, |taken|)
    ensures
      var b := TakeAll(H, nodeId, store, StartBatch(writers), taken, ambient);
      var (store', writers') := CutAt(store, b, landed);
      && (Sound(H, store', writers') <==> Stranded(b, landed) == [])
      && Sound(H, store', map[]) && Extends(store, store')
      && (if b.outcome.Going? && landed then forall e | e in taken :: HasId(Of(store', e.Chain()), e.eventId) else store' == store)
  {
    hide GoodRows, Stands, BatchSound, HasId, TakeAll;
    TakeAllSound(H, nodeId, store, writers, taken, ambient);
    SoundWithoutWriters(H, store, writers);
    var b := TakeAll(H, nodeId, store, StartBatch(writers), taken, ambient);
    if b.outcome.Going? {
      StoredSound(H, store, b);
      StoredThere(store, b.chained, taken);
      SoundWithoutWriters(H, StoreAll(store, b.chained), b.writers);
      if b.chained != [] {
        StrandedAhead(H, store, b);
      } else {
        assert StoreAll(store, b.chained) == store;
      }
    }
  }

  /** How a stranded batch shows: the next event of that chain that is stored
      leaves a gap where the stranded ones were to be, and whatever rows were
      there, the chain is no longer good. */
  lemma StrandedLeavesGap(
    H: HashFn, nodeId: Str, store: Store, writers: Writers, taken: seq<EmittedEvent>, ambient: seq<Ambient>,
    e: EmittedEvent, stamp: i64)
    requires |taken| == |ambient| && Sound(H, store, writers) && Room(store, |taken| + 1)
    requires
      var b := TakeAll(H, nodeId, store, StartBatch(writers), taken, ambient);
      && Only(Stranded(b, false), e.Chain()) != []
      && e.Chain() in b.writers && e.eventId !in b.writers[e.Chain()].seen
    ensures
      var b, c := TakeAll(H, nodeId, store, StartBatch(writers), taken, ambient), e.Chain();
      var rows, lost := Of(store, c), |Only(Stranded(b, false), c)|;
      && Append(H, b.writers[c], e, stamp).Ok?
      && var event := Append(H, b.writers[c], e, stamp).value.1;
      && event.seqNo == |rows| + lost + 1 && !GoodRows(H, c, rows + [event])
      && (rows != [] ==> Gap(|rows|, |rows| + lost + 1) in Report(H, rows + [event], GENESIS).violations)
  {
    hide GoodRows, BatchSound, TakeAll, HeadOf, RemembersTail, IndexExact, Append, EventFindings, Findings, HasId;
    RoomFor(store, |taken| + 1, |taken|);
    TakeAllSound(H, nodeId, store, writers, taken, ambient);
    var b, c := TakeAll(H, nodeId, store, StartBatch(writers), taken, ambient), e.Chain();
    ChainOf(H, store, b, c);
    OnlyBounded(b.chained, c);
    assert |Of(store, c)| + (|taken| + 1) < U64_MAX;
    var before := RowsWith(store, b.chained, c);
    AppendStands(H, b.writers[c], c, before, e, stamp);
    var event := Append(H, b.writers[c], e, stamp).value.1;
    LastPosition(H, c, before + [event]);
    PastTheEnd(H, c, Of(store, c) + [event]);
    if Of(store, c) != [] {
      SkippedIsGap(H, c, store, before, event);
    }
  }

  lemma LastPosition(H: HashFn, c: ChainId, rows: seq<AuditEvent>)
    requires GoodRows(H, c, rows) && rows != []
    ensures rows[|rows| - 1].seqNo == |rows|
  {
  }

  lemma PastTheEnd(H: HashFn, c: ChainId, rows: seq<AuditEvent>)
    requires rows != []
    ensures rows[|rows| - 1].seqNo != |rows| ==> !GoodRows(H, c, rows)
  {
  }
}
