/** One pull off the bus: everything that decodes is acked, or all of it is
    handed back.  Proved to be the `Pulled` step of the ingest machine. */
module Bus {
  import opened Wrappers
  import opened Hashing
  import opened Canon
  import opened Events
  import opened Pipeline
  import C = Cursors
  import B = Batches
  import T = BatchTheorems
  import R = IngestRuns
  import X = Cutoffs

  /** The bus side: what it was told to forget, what it was told to deliver
      again, and how many undecodable messages it was told to drop. */
  class Subscription {
    var acked: seq<EmittedEvent>
    var returned: seq<EmittedEvent>
    var dropped: nat

    constructor ()
      ensures acked == [] && returned == [] && dropped == 0
    {
      acked, returned, dropped := [], [], 0;
    }

    method Ack(event: EmittedEvent) returns (ok: bool)
      modifies this
      ensures acked == (if ok then old(acked) + [event] else old(acked))
      ensures returned == old(returned) && dropped == old(dropped)
    {
      ok := *;
      if ok {
        acked := acked + [event];
      }
    }

    method Nak(event: EmittedEvent)
      modifies this
      ensures returned == old(returned) + [event]
      ensures acked == old(acked) && dropped == old(dropped)
    {
      returned := returned + [event];
    }

    method AckUndecodable()
      modifies this
      ensures dropped == old(dropped) + 1
      ensures acked == old(acked) && returned == old(returned)
    {
      dropped := dropped + 1;
    }
  }

  datatype ConsumeReport = ConsumeReport(
    batches: nat, messages: nat, inserted: nat, duplicates: nat, redelivered: nat, undecodable: nat)

  class Consumer {
    const bus: Subscription
    const ingester: Ingester

    constructor (bus: Subscription, ingester: Ingester)
      ensures this.bus == bus && this.ingester == ingester
    {
      this.bus, this.ingester := bus, ingester;
    }

    ghost function View(): R.Sys
      reads bus, ingester, ingester.writers.Values, ingester.store
    {
      R.Sys(ingester.store.rows, ingester.View(), bus.acked)
    }

    /** Ack in order, stopping at the first ack that fails. */
    method AckAll(pending: seq<EmittedEvent>) returns (ok: bool, ghost acks: nat)
      modifies bus
      ensures acks <= |pending| && (ok <==> acks == |pending|)
      ensures bus.acked == old(bus.acked) + pending[..acks]
      ensures bus.returned == old(bus.returned) && bus.dropped == old(bus.dropped)
    {
      acks := 0;
      for k := 0 to |pending|
        invariant acks == k && bus.acked == old(bus.acked) + pending[..k]
        invariant bus.returned == old(bus.returned) && bus.dropped == old(bus.dropped)
      {
        ok := bus.Ack(pending[k]);
        if !ok {
          return;
        }
        acks := k + 1;
        assert pending[..k + 1] == pending[..k] + [pending[k]];
      }
      ok := true;
    }

    method NakAll(pending: seq<EmittedEvent>)
      modifies bus
      ensures bus.returned == old(bus.returned) + pending
      ensures bus.acked == old(bus.acked) && bus.dropped == old(bus.dropped)
    {
      for k := 0 to |pending|
        invariant bus.returned == old(bus.returned) + pending[..k]
        invariant bus.acked == old(bus.acked) && bus.dropped == old(bus.dropped)
      {
        bus.Nak(pending[k]);
        assert pending[..k + 1] == pending[..k] + [pending[k]];
      }
      assert pending[..|pending|] == pending;
    }

    /** Sort the fetched messages into a batch and the ones that never decode,
        and be rid of the latter. */
    method Sift(messages: seq<R.Message>) returns (batch: seq<EmittedEvent>, undecodable: nat)
      modifies bus
      ensures batch == R.Decoded(messages) && undecodable == |messages| - |batch|
      ensures bus.dropped == old(bus.dropped) + undecodable
      ensures bus.acked == old(bus.acked) && bus.returned == old(bus.returned)
    {
      batch, undecodable := [], 0;
      for k := 0 to |messages|
        invariant batch == R.Decoded(messages[..k]) && undecodable == k - |batch|
      {
        assert messages[..k + 1][..k] == messages[..k];
        match messages[k] {
          case Decodable(event) => batch := batch + [event];
          case Undecodable => undecodable := undecodable + 1;
        }
      }
      assert messages[..|messages|] == messages;
      for k := 0 to undecodable
        invariant bus.dropped == old(bus.dropped) + k
        invariant bus.acked == old(bus.acked) && bus.returned == old(bus.returned)
      {
        bus.AckUndecodable();
      }
    }

    /** Ingest a batch, then ack all of it or hand all of it back. */
    method Deliver(H: HashFn, batch: seq<EmittedEvent>, report: ConsumeReport)
      returns (r: Result<ConsumeReport, C.IngestError>, ghost ambient: seq<B.Ambient>, ghost stored: bool, ghost acks: nat)
      requires ingester.Valid() && batch != [] && report.redelivered == 0
      modifies bus, ingester, ingester.writers.Values, ingester.store
      ensures ingester.Valid() && fresh(ingester.writers.Values - old(ingester.writers.Values))
      ensures Delivered(H, ingester.nodeId, old(View()), View(), batch, ambient, stored, acks, r.Err?)
      ensures bus.dropped == old(bus.dropped)
      ensures bus.returned == old(bus.returned) + Returned(H, ingester.nodeId, old(View()), batch, ambient, stored)
      ensures r.Ok? ==>
                && r.value.redelivered == (if Returned(H, ingester.nodeId, old(View()), batch, ambient, stored) != [] then 1 else 0)
                && r.value.undecodable == report.undecodable
    {
      hide B.TakeAll, B.Settled;
      acks := 0;
      var ingested;
      ingested, ambient, stored := ingester.Ingest(H, batch);
      if ingested.Err? {
        return Err(ingested.error), ambient, stored, acks;
      }
      var after := report.(inserted := ingested.value.inserted, duplicates := ingested.value.duplicates);
      if ingested.value.deferred > 0 {
        NakAll(batch);
        return Ok(after.(redelivered := 1)), ambient, stored, acks;
      }
      var all;
      all, acks := AckAll(batch);
      r := if all then Ok(after) else Err(C.StoreDown);
    }

    /** A pull dropped for the heartbeat tick: while it ingests, or between acks. */
    method PullDropped(H: HashFn, messages: seq<R.Message>)
      returns (ghost ambient: seq<B.Ambient>, landed: bool, ghost acks: nat)
      requires ingester.Valid()
      modifies bus, ingester, ingester.writers.Values, ingester.store
      ensures ingester.Valid() && fresh(ingester.writers.Values - old(ingester.writers.Values))
      ensures |ambient| <= |R.Decoded(messages)| && (landed ==> |ambient| == |R.Decoded(messages)|)
      ensures View() == R.CutOff(H, ingester.nodeId, old(View()), R.Decoded(messages), ambient, landed, acks)
    {
      hide B.TakeAll, R.Decoded, X.CutAt;
      var batch, _ := Sift(messages);
      acks := 0;
      ambient, landed := ingester.IngestDropped(H, batch);
      assert bus.acked + batch[..0] == bus.acked;
      if landed {
        var reached :| 0 <= reached <= |batch|;
        var all;
        all, acks := AckAll(batch[..reached]);
        assert batch[..reached][..acks] == batch[..acks];
      }
    }

    /** One pull, chained and stored.  A fetch that fails changes nothing. */
    method PullOnce(H: HashFn, fetched: Option<seq<R.Message>>)
      returns (r: Result<ConsumeReport, C.IngestError>, ghost ambient: seq<B.Ambient>, ghost stored: bool, ghost acks: nat)
      requires ingester.Valid()
      modifies bus, ingester, ingester.writers.Values, ingester.store
      ensures ingester.Valid() && fresh(ingester.writers.Values - old(ingester.writers.Values))
      ensures fetched.None? ==>
                r.Err? && View() == old(View()) && bus.returned == old(bus.returned) && bus.dropped == old(bus.dropped)
      ensures fetched.Some? ==>
                var es := R.Decoded(fetched.value);
                && Delivered(H, ingester.nodeId, old(View()), View(), es, ambient, stored, acks, r.Err?)
                && bus.dropped == old(bus.dropped) + (|fetched.value| - |es|)
                && bus.returned == old(bus.returned) + Returned(H, ingester.nodeId, old(View()), es, ambient, stored)
                && (r.Ok? ==>
                      && r.value.redelivered == (if Returned(H, ingester.nodeId, old(View()), es, ambient, stored) != [] then 1 else 0)
                      && r.value.undecodable == |fetched.value| - |es|)
    {
      hide Delivered, Returned, R.Decoded;
      ambient, stored, acks := [], true, 0;
      if fetched.None? {
        return Err(C.StoreDown), ambient, stored, acks;
      }
      ghost var before := View();
      var batch, undecodable := Sift(fetched.value);
      var report := ConsumeReport(0, 0, 0, 0, 0, undecodable);
      if batch == [] {
        NothingDelivered(H, ingester.nodeId, before);
        return Ok(report), ambient, stored, acks;
      }
      report := report.(batches := 1, messages := |batch|);
      r, ambient, stored, acks := Deliver(H, batch, report);
    }
  }

  /** What a pull of `es` has come to: one step of the ingest machine, reported as
      failed if an event could not be chained or an ack did not get through. */
  ghost predicate Delivered(
    H: HashFn, nodeId: Str, s: R.Sys, s': R.Sys, es: seq<EmittedEvent>, ambient: seq<B.Ambient>, stored: bool, acks: nat, failed: bool)
  {
    && |ambient| == |es|
    && s' == R.Pulled(H, nodeId, s, es, ambient, stored, acks)
    && var b := B.TakeAll(H, nodeId, s.store, B.StartBatch(s.writers), es, ambient);
    (failed <==> b.outcome.Failed? || (!B.HandedBack(b, stored) && acks < |es|))
  }

  /** What a pull hands back: all of its batch or none of it. */
  ghost function Returned(H: HashFn, nodeId: Str, s: R.Sys, es: seq<EmittedEvent>, ambient: seq<B.Ambient>, stored: bool): seq<EmittedEvent>
    requires |ambient| == |es|
  {
    if B.HandedBack(B.TakeAll(H, nodeId, s.store, B.StartBatch(s.writers), es, ambient), stored) then es else []
  }

  /** Each pull is all or nothing: what is handed back left no trace in the store
      and is not acked; what is not handed back is stored, every message of it;
      and a pull only fails on an ack. */
  lemma PullIsAllOrNothing(
    H: HashFn, nodeId: Str, s: R.Sys, s': R.Sys, es: seq<EmittedEvent>, ambient: seq<B.Ambient>, stored: bool, acks: nat, failed: bool)
    requires R.SysSound(H, s) && B.Room(s.store, |es|)
    requires Delivered(H, nodeId, s, s', es, ambient, stored, acks, failed)
    ensures R.SysSound(H, s')
    ensures Returned(H, nodeId, s, es, ambient, stored) != [] ==> s'.store == s.store && s'.acked == s.acked
    ensures Returned(H, nodeId, s, es, ambient, stored) == [] ==> forall e | e in es :: B.HasId(B.Of(s'.store, e.Chain()), e.eventId)
    ensures failed ==> acks < |es| && s'.acked == s.acked + es[..acks]
  {
    hide B.TakeAll, B.HasId, B.Sound, B.Settled;
    T.IngestSound(H, nodeId, s.store, s.writers, es, ambient, stored);
    R.PulledSound(H, nodeId, s, es, ambient, stored, acks);
  }

  lemma NothingDelivered(H: HashFn, nodeId: Str, s: R.Sys)
    ensures Delivered(H, nodeId, s, s, [], [], true, 0, false)
    ensures Returned(H, nodeId, s, [], [], true) == []
  {
    assert s.acked + [] == s.acked;
  }
}
