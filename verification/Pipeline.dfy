/** The ingester itself: mutable writers, a store that may refuse, and the loop
    that undoes what was not stored.  Proved against `Batches` and `Heartbeats`. */
module Pipeline {
  import opened Wrappers
  import opened Hashing
  import opened Canon
  import opened Events
  import opened ChainWriters
  import C = Cursors
  import B = Batches
  import T = BatchTheorems
  import D = Heartbeats
  import X = Cutoffs

  /** All or nothing, and a head from one query.  Either call may fail. */
  class EventStore {
    var rows: B.Store

    constructor (rows: B.Store)
      ensures this.rows == rows
    {
      this.rows := rows;
    }

    method Head(chain: ChainId) returns (r: Result<Option<(u64, Hash32)>, C.IngestError>)
      ensures r == Ok(B.HeadRow(B.Of(rows, chain))) || r == Err(C.StoreDown)
    {
      if * {
        r := Ok(B.HeadRow(B.Of(rows, chain)));
      } else {
        r := Err(C.StoreDown);
      }
    }

    method Insert(batch: seq<AuditEvent>) returns (r: Result<(), C.IngestError>)
      modifies this
      ensures match r
              case Ok(_) => rows == B.StoreAll(old(rows), batch)
              case Err(x) => rows == old(rows) && x == C.StoreDown
    {
      if * {
        rows := B.StoreAll(rows, batch);
        r := Ok(());
      } else {
        r := Err(C.StoreDown);
      }
    }
  }

  /** All but the `left` chains put back. */
  ghost function PartlyRewound(writers: B.Writers, rollback: B.Rollback, left: set<ChainId>): B.Writers {
    map c | c in writers ::
      if c in rollback && c !in left then C.RewindTo(writers[c], rollback[c].0, rollback[c].1) else writers[c]
  }

  lemma NoneRewound(writers: B.Writers, rollback: B.Rollback)
    ensures PartlyRewound(writers, rollback, rollback.Keys) == writers
    ensures PartlyRewound(writers, rollback, {}) == B.Rewound(writers, rollback)
  {
    hide C.RewindTo;
  }

  lemma OneRewound(writers: B.Writers, rollback: B.Rollback, left: set<ChainId>, c: ChainId)
    requires left <= rollback.Keys && c in left
    ensures
      var now, next := PartlyRewound(writers, rollback, left), PartlyRewound(writers, rollback, left - {c});
      next == if c in now then now[c := C.RewindTo(now[c], rollback[c].0, rollback[c].1)] else now
  {
    hide C.RewindTo;
  }

  datatype IngestReport = IngestReport(chained: nat, inserted: nat, duplicates: nat, deferred: nat, retries: nat)

  class Ingester {
    const store: EventStore
    const nodeId: Str
    const attempts: nat
    var writers: map<ChainId, ChainWriter>

    /** One writer per chain. */
    ghost predicate Valid()
      reads this
    {
      forall c | c in writers :: writers[c].chain == c
    }

    ghost function View(): B.Writers
      reads this, writers.Values
    {
      map c | c in writers :: writers[c].State()
    }

    constructor (store: EventStore, nodeId: Str, attempts: nat)
      ensures Valid() && View() == map[] && this.store == store && this.nodeId == nodeId
    {
      this.store, this.nodeId, this.attempts := store, nodeId, attempts;
      writers := map[];
    }

    method RewindOne(chain: ChainId, nextSeq: u64, headHash: Hash32)
      requires Valid() && chain in writers
      modifies writers[chain]
      ensures View() == old(View())[chain := C.RewindTo(old(View())[chain], nextSeq, headHash)]
    {
      hide C.RewindTo;
      ghost var before := View();
      writers[chain].RewindTo(nextSeq, headHash);
      assert forall c | c in writers && c != chain :: writers[c].State() == before[c];
    }

    /** Every touched writer back where it stood, in whatever order. */
    method Rewind(rollback: B.Rollback)
      requires Valid()
      modifies writers.Values
      ensures View() == B.Rewound(old(View()), rollback)
    {
      ghost var before := View();
      var left := rollback.Keys;
      NoneRewound(before, rollback);
      while left != {}
        invariant left <= rollback.Keys
        invariant View() == PartlyRewound(before, rollback, left)
        decreases |left|
      {
        hide PartlyRewound, C.RewindTo;
        var c :| c in left;
        OneRewound(before, rollback, left, c);
        assert c in writers <==> c in View();
        hide View;
        if c in writers {
          RewindOne(c, rollback[c].0, rollback[c].1);
        }
        left := left - {c};
      }
    }

    method InsertWithRetry(batch: seq<AuditEvent>, report: IngestReport) returns (r: Result<(), C.IngestError>, after: IngestReport)
      modifies store
      ensures store.rows == if r.Ok? then B.StoreAll(old(store.rows), batch) else old(store.rows)
      ensures after == report.(retries := after.retries)
      ensures report.retries <= after.retries <= report.retries + attempts
      ensures r.Err? <==> after.retries == report.retries + attempts
    {
      after := report;
      for attempt := 0 to attempts
        invariant store.rows == old(store.rows)
        invariant after == report.(retries := report.retries + attempt)
      {
        r := store.Insert(batch);
        if r.Ok? {
          return;
        }
        after := after.(retries := after.retries + 1);
      }
      r := Err(C.StoreDown);
    }

    /** The writer of a chain, resumed from the store if there is none.  Without
        an answer from the store there is nowhere safe to start. */
    method EnsureWriter(chain: ChainId) returns (up: bool)
      requires Valid()
      modifies this
      ensures Valid() && fresh(writers.Values - old(writers.Values))
      ensures !up ==> chain !in View() && View() == old(View())
      ensures up ==> chain in writers && View() == old(View())[chain := WriterOr(old(View()), chain, nodeId, store.rows)]
    {
      hide B.HeadRow;
      if chain !in writers {
        var resumed := store.Head(chain);
        if resumed.Err? {
          return false;
        }
        var row := resumed.value.GetOr((0, GENESIS));
        var writer := new ChainWriter.ResumeFrom(chain, nodeId, row.0, row.1);
        writers := writers[chain := writer];
      }
      up := true;
    }

    lemma AtView(chain: ChainId)
      requires chain in writers
      ensures chain in View() && View()[chain] == writers[chain].State()
    {
    }

    /** Append to one writer; the others are as they were. */
    method AppendTo(H: HashFn, chain: ChainId, emitted: EmittedEvent)
      returns (appended: Result<AuditEvent, C.IngestError>, ghost now: i64)
      requires Valid() && chain in writers
      modifies writers[chain]
      ensures match C.Append(H, old(View())[chain], emitted, now)
              case Ok((w, event)) => appended == Ok(event) && View() == old(View())[chain := w]
              case Err(x) => appended == Err(x) && View() == old(View())
    {
      hide C.Append;
      ghost var before := View();
      var writer := writers[chain];
      appended, now := writer.Append(H, emitted);
      assert forall c | c in writers && c != chain :: writers[c].State() == before[c];
    }

    /** One message of a batch. */
    method Take(H: HashFn, emitted: EmittedEvent, rollback: B.Rollback, chained: seq<AuditEvent>, duplicates: nat)
      returns (outcome: B.Outcome, after: B.Rollback, stamped: seq<AuditEvent>, refused: nat, ghost a: B.Ambient)
      requires Valid()
      modifies this, writers.Values
      ensures Valid() && fresh(writers.Values - old(writers.Values))
      ensures B.Batch(View(), after, stamped, refused, outcome) ==
              B.TakeOne(H, nodeId, store.rows, B.Batch(old(View()), rollback, chained, duplicates, B.Going), emitted, a)
      ensures refused <= duplicates + 1
    {
      hide B.Rewound, C.Append, WriterOr, View;
      ghost var b := B.Batch(View(), rollback, chained, duplicates, B.Going);
      outcome, after, stamped, refused := B.Going, rollback, chained, duplicates;
      var chain := emitted.Chain();
      var up := EnsureWriter(chain);
      if !up {
        a := B.Ambient(false, 0);
        Rewind(rollback);
        return B.Deferred, after, stamped, refused, a;
      }
      ghost var w := WriterOr(b.writers, chain, nodeId, store.rows);
      if chain !in after {
        assert View()[chain] == writers[chain].State() by { AtView(chain); }
        after := after[chain := (writers[chain].nextSeq, writers[chain].headHash)];
      }
      var appended;
      ghost var now;
      appended, now := AppendTo(H, chain, emitted);
      a := B.Ambient(true, now);
      TakenIs(H, nodeId, store.rows, b, emitted, now);
      assert b.writers[chain := w][chain := View()[chain]] == b.writers[chain := View()[chain]];
      if appended.Ok? {
        stamped := stamped + [appended.value];
      } else if appended.error.Duplicate? {
        refused := refused + 1;
      } else {
        outcome := B.Failed(appended.error);
      }
    }

    /** Chain and store one batch. */
    method Ingest(H: HashFn, batch: seq<EmittedEvent>)
      returns (r: Result<IngestReport, C.IngestError>, ghost ambient: seq<B.Ambient>, ghost stored: bool)
      requires Valid()
      modifies this, writers.Values, store
      ensures Valid() && fresh(writers.Values - old(writers.Values)) && |ambient| == |batch|
      ensures
        var b := B.TakeAll(H, nodeId, old(store.rows), B.StartBatch(old(View())), batch, ambient);
        && (store.rows, View()) == B.Settled(old(store.rows), b, stored)
        && Reported(r, b, stored, attempts)
    {
      hide B.Rewound, B.TakeOne, B.StoreAll, View;
      ghost var before, start := store.rows, B.StartBatch(View());
      var chained: seq<AuditEvent>, duplicates := [], 0;
      var rollback: B.Rollback := map[];
      ambient, stored := [], true;
      for n := 0 to |batch|
        invariant Valid() && fresh(writers.Values - old(writers.Values)) && store.rows == before
        invariant |ambient| == n && stored
        invariant B.TakeAll(H, nodeId, before, start, batch[..n], ambient) ==
                  B.Batch(View(), rollback, chained, duplicates, B.Going)
      {
        ghost var sofar := ambient;
        var outcome;
        ghost var a;
        outcome, rollback, chained, duplicates, a := Take(H, batch[n], rollback, chained, duplicates);
        ambient := sofar + [a];
        TakeAllStep(H, nodeId, before, start, batch, sofar, a);
        if !outcome.Going? {
          ambient := Padded(H, nodeId, before, start, batch, sofar, a);
          r := if outcome.Deferred? then Ok(IngestReport(|chained|, 0, duplicates, 1, 0)) else Err(outcome.reason);
          return r, ambient, stored;
        }
      }
      assert batch[..|batch|] == batch;
      var report := IngestReport(|chained|, 0, duplicates, 0, 0);
      if chained == [] {
        return Ok(report), ambient, stored;
      }
      var inserted;
      inserted, report := InsertWithRetry(chained, report);
      stored := inserted.Ok?;
      if inserted.Ok? {
        report := report.(inserted := report.inserted + |chained|);
      } else {
        Rewind(rollback);
        report := report.(deferred := report.deferred + 1);
      }
      r := Ok(report);
    }

    /** The same call dropped at an await: while it asks for a head, inserts, or
        backs off.  Only what was done before stays done; there is no rewind. */
    method IngestDropped(H: HashFn, batch: seq<EmittedEvent>)
      returns (ghost ambient: seq<B.Ambient>, landed: bool)
      requires Valid()
      modifies this, writers.Values, store
      ensures Valid() && fresh(writers.Values - old(writers.Values))
      ensures |ambient| <= |batch| && (landed ==> |ambient| == |batch|)
      ensures (store.rows, View()) ==
              X.CutAt(old(store.rows), B.TakeAll(H, nodeId, old(store.rows), B.StartBatch(old(View())), batch[..|ambient|], ambient), landed)
      ensures landed ==> B.TakeAll(H, nodeId, old(store.rows), B.StartBatch(old(View())), batch[..|ambient|], ambient).outcome.Going?
    {
      hide B.Rewound, B.TakeOne, B.StoreAll, View, B.TakeAll;
      ghost var before, start := store.rows, B.StartBatch(View());
      var chained: seq<AuditEvent>, duplicates := [], 0;
      var rollback: B.Rollback := map[];
      ambient, landed := [], false;
      TakeNothing(H, nodeId, before, start, batch);
      for n := 0 to |batch|
        invariant Valid() && fresh(writers.Values - old(writers.Values)) && store.rows == before
        invariant |ambient| == n && !landed
        invariant B.TakeAll(H, nodeId, before, start, batch[..n], ambient) ==
                  B.Batch(View(), rollback, chained, duplicates, B.Going)
      {
        if * {
          return;
        }
        ghost var sofar := ambient;
        var outcome;
        ghost var a;
        outcome, rollback, chained, duplicates, a := Take(H, batch[n], rollback, chained, duplicates);
        ambient := sofar + [a];
        TakeAllStep(H, nodeId, before, start, batch, sofar, a);
        if !outcome.Going? {
          return;
        }
      }
      assert batch[..|batch|] == batch;
      if chained == [] {
        NothingStored(before);
        landed := true;
        return;
      }
      landed := InsertDropped(chained);
    }

    /** The retry loop dropped during an insert or a back-off. */
    method InsertDropped(batch: seq<AuditEvent>) returns (landed: bool)
      modifies store
      ensures store.rows == if landed then B.StoreAll(old(store.rows), batch) else old(store.rows)
    {
      landed := false;
      for attempt := 0 to attempts
        invariant store.rows == old(store.rows)
      {
        if * {
          return;
        }
        var r := store.Insert(batch);
        if r.Ok? {
          return true;
        }
      }
    }

    method BeatOne(H: HashFn, chain: ChainId, now: i64)
      returns (r: Option<Result<AuditEvent, C.IngestError>>, ghost stamp: i64)
      requires Valid() && chain in writers
      modifies writers[chain]
      ensures var (w, said) := C.Heartbeat(H, old(View())[chain], now, stamp);
              View() == old(View())[chain := w] && r == said
    {
      hide C.Heartbeat;
      ghost var before := View();
      r, stamp := writers[chain].Heartbeat(H, now);
      assert forall c | c in writers && c != chain :: writers[c].State() == before[c];
    }

    /** Offer every live writer its daily heartbeat, in whatever order. */
    method OfferHeartbeats(H: HashFn, now: i64)
      returns (written: seq<AuditEvent>, ghost order: seq<ChainId>, ghost stamps: seq<i64>)
      requires Valid()
      modifies writers.Values
      ensures |order| == |stamps| && EachOnce(order, writers.Keys)
      ensures D.OfferAll(H, old(View()), order, now, stamps) == D.Beat(View(), written)
    {
      hide C.Heartbeat, D.OfferOne, Written;
      ghost var start := View();
      var left := writers.Keys;
      written, order, stamps := [], [], [];
      ghost var done: set<ChainId> := {};
      while left != {}
        invariant left !! done && left + done == writers.Keys
        invariant |order| == |stamps| && EachOnce(order, done)
        invariant D.OfferAll(H, start, order, now, stamps) == D.Beat(View(), written)
        decreases left
      {
        hide D.OfferAll, EachOnce;
        var chain :| chain in left;
        assert chain in View();
        hide View;
        var said;
        ghost var stamp;
        ghost var before := D.Beat(View(), written);
        said, stamp := BeatOne(H, chain, now);
        OfferStep(H, start, order, now, stamps, chain, stamp);
        OfferedIs(H, before, chain, now, stamp);
        written := written + Written(said);
        OnceMore(order, done, chain);
        done := done + {chain};
        order, stamps := order + [chain], stamps + [stamp];
        left := left - {chain};
      }
      assert done == writers.Keys;
    }

    /** Heartbeats for every live writer, stored in one insert.  A refused insert
        undoes nothing. */
    method Heartbeats(H: HashFn, now: i64)
      returns (r: Result<nat, C.IngestError>, ghost order: seq<ChainId>, ghost stamps: seq<i64>)
      requires Valid()
      modifies writers.Values, store
      ensures |order| == |stamps| && EachOnce(order, writers.Keys)
      ensures
        var b := D.OfferAll(H, old(View()), order, now, stamps);
        && (store.rows, View()) == D.Beaten(old(store.rows), b, r.Ok?)
        && (r.Ok? ==> r.value == |b.written|)
        && (b.written == [] ==> r.Ok?)
    {
      hide B.StoreAll, D.OfferAll, EachOnce;
      var written;
      written, order, stamps := OfferHeartbeats(H, now);
      if written == [] {
        return Ok(0), order, stamps;
      }
      var inserted := store.Insert(written);
      r := if inserted.Ok? then Ok(|written|) else Err(inserted.error);
    }
  }

  /** The chains of a set, each one once. */
  ghost predicate EachOnce(order: seq<ChainId>, chains: set<ChainId>) {
    && (forall c :: c in order <==> c in chains)
    && (forall i, j :: 0 <= i < j < |order| ==> order[i] != order[j])
  }

  lemma OnceMore(order: seq<ChainId>, chains: set<ChainId>, c: ChainId)
    requires EachOnce(order, chains) && c !in chains
    ensures EachOnce(order + [c], chains + {c})
  {
    assert forall i :: 0 <= i < |order| ==> order[i] in order;
  }

  /** A heartbeat that was chained is kept; any other is passed over. */
  function Written(said: Option<Result<AuditEvent, C.IngestError>>): seq<AuditEvent> {
    if said.Some? && said.value.Ok? then [said.value.value] else []
  }

  lemma OfferedIs(H: HashFn, b: D.Beat, c: ChainId, now: i64, stamp: i64)
    requires c in b.writers
    ensures var (w, said) := C.Heartbeat(H, b.writers[c], now, stamp);
            D.OfferOne(H, b, c, now, stamp) == D.Beat(b.writers[c := w], b.written + Written(said))
  {
    hide C.Heartbeat;
    var (w, said) := C.Heartbeat(H, b.writers[c], now, stamp);
    match said {
      case Some(Ok(event)) => assert D.OfferOne(H, b, c, now, stamp).written == b.written + [event];
      case Some(Err(_)) => assert b.written + [] == b.written;
      case None => assert b.written + [] == b.written;
    }
  }

  lemma OfferStep(H: HashFn, start: B.Writers, order: seq<ChainId>, now: i64, stamps: seq<i64>, chain: ChainId, stamp: i64)
    requires |order| == |stamps|
    ensures D.OfferAll(H, start, order + [chain], now, stamps + [stamp]) ==
            D.OfferOne(H, D.OfferAll(H, start, order, now, stamps), chain, now, stamp)
  {
    hide D.OfferOne;
    assert (order + [chain])[..|order|] == order && (stamps + [stamp])[..|stamps|] == stamps;
  }

  /** What the caller is told. */
  predicate Reported(r: Result<IngestReport, C.IngestError>, b: B.Batch, stored: bool, attempts: nat) {
    match r
    case Err(x) => b.outcome == B.Failed(x)
    case Ok(report) =>
      && !b.outcome.Failed?
      && report.chained == |b.chained| && report.duplicates == b.duplicates
      && report.inserted == (if b.outcome.Going? && stored then |b.chained| else 0)
      && report.deferred == (if B.HandedBack(b, stored) then 1 else 0)
      && report.retries <= attempts
  }

  function WriterOr(writers: B.Writers, chain: ChainId, nodeId: Str, store: B.Store): C.Cursor {
    if chain in writers then writers[chain] else B.Resumed(chain, nodeId, B.HeadRow(B.Of(store, chain)))
  }

  lemma TakenIs(H: HashFn, nodeId: Str, store: B.Store, b: B.Batch, e: EmittedEvent, now: i64)
    requires b.outcome.Going?
    ensures
      var c, w := e.Chain(), WriterOr(b.writers, e.Chain(), nodeId, store);
      var touched := b.(writers := b.writers[c := w],
                        rollback := if c in b.rollback then b.rollback else b.rollback[c := (w.nextSeq, w.head)]);
      B.TakeOne(H, nodeId, store, b, e, B.Ambient(true, now)) ==
      match C.Append(H, w, e, now)
      case Ok((w', event)) => touched.(writers := b.writers[c := w'], chained := b.chained + [event])
      case Err(x) => if x.Duplicate? then touched.(duplicates := b.duplicates + 1) else touched.(outcome := B.Failed(x))
  {
    hide C.Append, B.Resumed, B.HeadRow;
  }

  lemma NothingStored(store: B.Store)
    ensures B.StoreAll(store, []) == store
  {
  }

  lemma TakeNothing(H: HashFn, nodeId: Str, store: B.Store, start: B.Batch, es: seq<EmittedEvent>)
    ensures B.TakeAll(H, nodeId, store, start, es[..0], []) == start
  {
  }

  lemma TakeAllStep(H: HashFn, nodeId: Str, store: B.Store, start: B.Batch, es: seq<EmittedEvent>, before: seq<B.Ambient>, a: B.Ambient)
    requires |before| < |es|
    ensures var n := |before|;
            B.TakeAll(H, nodeId, store, start, es[..n + 1], before + [a]) ==
            B.TakeOne(H, nodeId, store, B.TakeAll(H, nodeId, store, start, es[..n], before), es[n], a)
  {
    hide B.TakeOne;
    assert es[..|before| + 1][..|before|] == es[..|before|];
    assert (before + [a])[..|before|] == before;
  }

  /** Once a batch has stopped, the rest of its messages change nothing. */
  ghost function Padded(
    H: HashFn, nodeId: Str, store: B.Store, start: B.Batch, es: seq<EmittedEvent>, before: seq<B.Ambient>, last: B.Ambient)
    : (r: seq<B.Ambient>)
    requires |before| < |es|
    ensures |r| == |es|
    ensures var n := |before|;
            var b := B.TakeOne(H, nodeId, store, B.TakeAll(H, nodeId, store, start, es[..n], before), es[n], last);
            !b.outcome.Going? ==> B.TakeAll(H, nodeId, store, start, es, r) == b
  {
    var r := before + [last] + seq(|es| - |before| - 1, _ => last);
    StopsFor(H, nodeId, store, start, es, r, |before|);
    assert r[..|before|] == before;
    r
  }

  lemma {:induction false} StopsFor(
    H: HashFn, nodeId: Str, store: B.Store, start: B.Batch, es: seq<EmittedEvent>, ambient: seq<B.Ambient>, n: nat)
    requires n < |es| == |ambient|
    ensures var b := B.TakeOne(H, nodeId, store, B.TakeAll(H, nodeId, store, start, es[..n], ambient[..n]), es[n], ambient[n]);
            !b.outcome.Going? ==> B.TakeAll(H, nodeId, store, start, es, ambient) == b
    decreases |es|
  {
    hide C.Append, B.Rewound, B.Resumed;
    var m := |es| - 1;
    if n < m {
      StopsFor(H, nodeId, store, start, es[..m], ambient[..m], n);
      assert es[..m][..n] == es[..n] && ambient[..m][..n] == ambient[..n];
    }
  }
}
