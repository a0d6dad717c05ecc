/** The producer half and the drain of the telemetry fork, as they run. */
module Batcher {
  import opened Wrappers
  import opened Hashing
  import opened Canon
  import opened Events
  import opened Cursors
  import opened Drops
  import T = Telemetry

  /** The bounded channel. */
  class Channel {
    const capacity: nat
    var open: bool
    var queue: seq<EmittedEvent>

    constructor (capacity: nat)
      ensures this.capacity == capacity && open && queue == []
    {
      this.capacity, open, queue := capacity, true, [];
    }

    method TrySend(event: EmittedEvent) returns (sent: bool)
      modifies this
      ensures sent <==> old(open) && |old(queue)| < capacity
      ensures queue == if sent then old(queue) + [event] else old(queue)
      ensures open == old(open)
    {
      sent := open && |queue| < capacity;
      if sent {
        queue := queue + [event];
      }
    }

    method TryRecv() returns (r: Option<EmittedEvent>)
      modifies this
      ensures r == if old(queue) == [] then None else Some(old(queue)[0])
      ensures queue == if old(queue) == [] then [] else old(queue)[1..]
      ensures open == old(open)
    {
      if queue == [] {
        return None;
      }
      r := Some(queue[0]);
      queue := queue[1..];
    }
  }

  /** Where a drained batch goes; it takes all of it or none. */
  class EventSink {
    var published: seq<EmittedEvent>

    constructor ()
      ensures published == []
    {
      published := [];
    }

    method Publish(batch: seq<EmittedEvent>) returns (ok: bool)
      modifies this
      ensures published == if ok then old(published) + batch else old(published)
    {
      ok := *;
      if ok {
        published := published + batch;
      }
    }
  }

  /** Drops recorded one after another, each with its time. */
  ghost function RecordedAll(ws: Windows, chains: seq<ChainId>, times: seq<i64>): Windows
    requires |chains| == |times|
  {
    if chains == [] then ws
    else
      var n := |chains| - 1;
      Recorded(RecordedAll(ws, chains[..n], times[..n]), chains[n], times[n])
  }

  ghost predicate EventsOf(events: seq<EmittedEvent>, windows: seq<DropWindow>, nodeId: Str) {
    |events| == |windows| && forall i :: 0 <= i < |events| ==> events[i] == DropEvent(windows[i], nodeId, events[i].eventId)
  }

  /** A fork in which no event is between two steps, and without its history. */
  ghost function Running(channel: Channel, drops: DropCounter, batch: seq<EmittedEvent>): T.Fork
    reads channel, drops
  {
    T.Start(channel.capacity).(
      open := channel.open, queue := channel.queue, batch := batch, total := drops.total, windows := drops.windows)
  }

  /** A fork without its history. */
  ghost function Visible(f: T.Fork): T.Fork {
    f.(emitted := [], published := [], lost := [], abandoned := [], charged := [], reported := [], forgotten := [])
  }

  class TelemetryFork {
    const channel: Channel
    const drops: DropCounter

    constructor (channel: Channel, drops: DropCounter)
      ensures this.channel == channel && this.drops == drops
    {
      this.channel, this.drops := channel, drops;
    }

    /** What the producers share, as a fork of the machine. */
    ghost function View(): T.Fork
      reads channel, drops
    {
      Running(channel, drops, [])
    }

    /** Queued, or counted against the chain that lost it: never both, never neither. */
    method Emit(event: EmittedEvent) returns (ghost now: i64)
      modifies channel, drops
      ensures View() == Visible(T.Step(T.Step(old(View()), T.Emit(event)), T.Charge(0, now)))
      ensures
        if old(channel.open) && |old(channel.queue)| < channel.capacity then
          && channel.queue == old(channel.queue) + [event]
          && drops.total == old(drops.total) && drops.windows == old(drops.windows)
        else
          && channel.queue == old(channel.queue)
          && drops.total == old(drops.total) + 1 && drops.windows == Recorded(old(drops.windows), event.Chain(), now)
    {
      hide Recorded, KeyFor;
      now := 0;
      var sent := channel.TrySend(event);
      if !sent {
        now := drops.Record(event.Chain());
      }
      EmitIsSteps(old(View()), event, now);
    }
  }

  datatype DrainReport = DrainReport(published: nat, batches: nat, failed: nat, dropEvents: nat)

  class Batcher {
    const channel: Channel
    const drops: DropCounter
    const sink: EventSink
    const nodeId: Str
    const maxEvents: nat
    var batch: seq<EmittedEvent>
    var report: DrainReport

    constructor (channel: Channel, drops: DropCounter, sink: EventSink, nodeId: Str, maxEvents: nat)
      ensures this.channel == channel && this.drops == drops && this.sink == sink
      ensures this.nodeId == nodeId && this.maxEvents == maxEvents
      ensures batch == [] && report == DrainReport(0, 0, 0, 0)
    {
      this.channel, this.drops, this.sink, this.nodeId, this.maxEvents := channel, drops, sink, nodeId, maxEvents;
      batch, report := [], DrainReport(0, 0, 0, 0);
    }

    ghost function View(): T.Fork
      reads this, channel, drops
    {
      Running(channel, drops, batch)
    }

    /** After one event has come, take what else is queued, up to a full batch. */
    method Fill(first: EmittedEvent)
      modifies this`batch, channel
      ensures |batch| > |old(batch)|
      ensures channel.open ==> View() == Received(old(View()).(queue := [first] + old(channel.queue)), |batch| - |old(batch)|)
      ensures batch + channel.queue == old(batch) + [first] + old(channel.queue)
      ensures |batch| >= maxEvents || channel.queue == []
      ensures |batch| <= maxEvents || |batch| == |old(batch)| + 1
      ensures channel.open == old(channel.open)
    {
      ghost var start := View().(queue := [first] + channel.queue);
      batch := batch + [first];
      while |batch| < maxEvents
        invariant |batch| > |old(batch)|
        invariant channel.open ==> View() == Received(start, |batch| - |old(batch)|)
        invariant batch + channel.queue == old(batch) + [first] + old(channel.queue)
        invariant |batch| <= maxEvents || |batch| == |old(batch)| + 1
        invariant channel.open == old(channel.open)
        decreases |channel.queue|
      {
        ghost var queued := channel.queue;
        var next := channel.TryRecv();
        if next.None? {
          return;
        }
        assert queued == [next.value] + channel.queue;
        assert batch + queued == (batch + [next.value]) + channel.queue;
        batch := batch + [next.value];
      }
    }

    /** Turn what was dropped into events and publish them; if that fails too,
        everything is as it was. */
    method Recover() returns (ghost windows: seq<DropWindow>, ghost events: seq<EmittedEvent>, ghost reported: bool)
      modifies this`report, drops, sink
      ensures View() == Visible(Recovered(old(View()), windows, reported))
      ensures Lists(windows, old(drops.windows)) && EventsOf(events, windows, nodeId)
      ensures drops.total == old(drops.total)
      ensures
        if reported then
          && sink.published == old(sink.published) + events && drops.windows == map[]
          && report == old(report).(dropEvents := old(report).dropEvents + |windows|)
        else sink.published == old(sink.published) && drops.windows == old(drops.windows) && report == old(report)
    {
      hide DropEvent, Recorded, Recovered, Lists;
      var taken := drops.Take();
      windows, events, reported := taken, [], false;
      RecoverIsSteps(old(View()), taken, false);
      RecoverIsSteps(old(View()), taken, true);
      if taken == [] {
        PutBackAsTheyWere(old(drops.windows), taken);
        return;
      }
      var out := [];
      for n := 0 to |taken|
        invariant EventsOf(out, taken[..n], nodeId)
        invariant drops.windows == map[] && drops.total == old(drops.total)
        invariant sink.published == old(sink.published) && report == old(report)
      {
        var id: EventId := *;
        var event := DropEvent(taken[n], nodeId, id);
        OneMoreEvent(out, taken[..n], nodeId, taken[n], id);
        assert taken[..n + 1] == taken[..n] + [taken[n]];
        out := out + [event];
      }
      assert taken[..|taken|] == taken;
      events := out;
      var ok := sink.Publish(out);
      reported := ok;
      if ok {
        report := report.(dropEvents := report.dropEvents + |taken|);
      } else {
        PutBackAsTheyWere(old(drops.windows), taken);
        drops.Restore(taken);
      }
    }

    /** Publish the batch or count every event of it as dropped, then try to report
        the holes. */
    method Flush()
      returns (ghost accepted: bool, ghost times: seq<i64>, ghost windows: seq<DropWindow>, ghost events: seq<EmittedEvent>, ghost reported: bool)
      modifies this, drops, sink
      ensures |times| == |old(batch)|
      ensures
        var done := Flushed(old(View()), accepted, times, windows, reported);
        View() == Visible(done) && sink.published == old(sink.published) + done.published + if reported then events else []
      ensures batch == []
      ensures drops.total == old(drops.total) + (if accepted then 0 else |old(batch)|)
      ensures
        var ws := if accepted then old(drops.windows) else RecordedAll(old(drops.windows), Senders(old(batch)), times);
        var out := old(sink.published) + if accepted then old(batch) else [];
        && Lists(windows, ws) && EventsOf(events, windows, nodeId)
        && (if reported then sink.published == out + events && drops.windows == map[]
            else sink.published == out && drops.windows == ws)
      ensures
        && report.published == old(report).published + (if accepted then |old(batch)| else 0)
        && report.failed == old(report).failed + (if accepted then 0 else |old(batch)|)
    {
      hide DropEvent, Recorded, RecordedAll, EventsOf, Lists, Flushed, Recovered, Senders;
      accepted, times := true, seq(|batch|, _ => 0);
      if batch != [] {
        var sent, chains := batch, Senders(batch);
        batch := [];
        var ok := sink.Publish(sent);
        accepted := ok;
        if ok {
          report := report.(published := report.published + |sent|, batches := report.batches + 1);
        } else {
          report := report.(failed := report.failed + |sent|);
          times := RecordAll(chains);
        }
      }
      assert old(sink.published) + [] == old(sink.published);
      windows, events, reported := Recover();
      FlushIsSteps(old(View()), accepted, times, windows, reported);
    }

    /** Record every event of a batch the sink refused. */
    method RecordAll(chains: seq<ChainId>) returns (ghost times: seq<i64>)
      modifies drops
      ensures |times| == |chains| && drops.total == old(drops.total) + |chains|
      ensures drops.windows == RecordedAll(old(drops.windows), chains, times)
    {
      hide Recorded;
      times := [];
      for n := 0 to |chains|
        invariant |times| == n && drops.total == old(drops.total) + n
        invariant drops.windows == RecordedAll(old(drops.windows), chains[..n], times)
      {
        ghost var now;
        now := drops.Record(chains[n]);
        assert chains[..n + 1][..n] == chains[..n] && (times + [now])[..n] == times;
        times := times + [now];
      }
      assert chains[..|chains|] == chains;
    }
  }

  function Senders(es: seq<EmittedEvent>): (r: seq<ChainId>)
    ensures |r| == |es|
  {
    seq(|es|, i requires 0 <= i < |es| => es[i].Chain())
  }

  lemma OneMoreEvent(events: seq<EmittedEvent>, windows: seq<DropWindow>, nodeId: Str, w: DropWindow, id: EventId)
    requires EventsOf(events, windows, nodeId)
    ensures EventsOf(events + [DropEvent(w, nodeId, id)], windows + [w], nodeId)
  {
  }

  // ----- The calls as steps of the fork -----

  /** An emit is one step, or two if the event is dropped. */
  lemma EmitIsSteps(f: T.Fork, e: EmittedEvent, now: i64)
    ensures
      T.Step(T.Step(f, T.Emit(e)), T.Charge(|f.counted|, now)) ==
      if f.open && |f.queue| < f.capacity then f.(emitted := f.emitted + [e], queue := f.queue + [e])
      else
        f.(emitted := f.emitted + [e], total := f.total + 1, lost := f.lost + [e], windows := Recorded(f.windows, e.Chain(), now),
           charged := f.charged + [T.Charged(e.Chain(), KeyFor(f.windows, e.Chain()), now, f.windows.Keys)])
  {
    hide Recorded, KeyFor;
    var n := |f.counted|;
    assert (f.counted + [e.Chain()])[..n] + (f.counted + [e.Chain()])[n + 1..] == f.counted;
  }

  /** `n` events drained one after another. */
  ghost function Received(f: T.Fork, n: nat): T.Fork {
    if n == 0 then f else T.Step(Received(f, n - 1), T.Receive)
  }

  /** The first `n` events of a refused batch recorded, each counted and charged. */
  ghost function Tallied(f: T.Fork, times: seq<i64>, n: nat): T.Fork
    requires n <= |times|
  {
    if n == 0 then f
    else T.Step(T.Step(Tallied(f, times, n - 1), T.Tally), T.Charge(|f.counted|, times[n - 1]))
  }

  /** Recording one event of a refused batch. */
  lemma TallyIsSteps(g: T.Fork, now: i64)
    requires g.failing != []
    ensures
      var e := g.failing[0];
      var x := T.Charged(e.Chain(), KeyFor(g.windows, e.Chain()), now, g.windows.Keys);
      T.Step(T.Step(g, T.Tally), T.Charge(|g.counted|, now)) ==
      g.(failing := g.failing[1..], total := g.total + 1, lost := g.lost + [e],
         windows := Recorded(g.windows, e.Chain(), now), charged := g.charged + [x])
  {
    hide Recorded, KeyFor;
    var c, m := g.failing[0].Chain(), |g.counted|;
    assert (g.counted + [c])[..m] + (g.counted + [c])[m + 1..] == g.counted;
  }

  lemma SenderAt(es: seq<EmittedEvent>, i: nat)
    requires i < |es|
    ensures Senders(es)[i] == es[i].Chain()
  {
  }

  lemma {:induction false} RecordAllIsSteps(f: T.Fork, times: seq<i64>, n: nat)
    requires n <= |times| == |f.failing|
    ensures
      var g := Tallied(f, times, n);
      && g.failing == f.failing[n..] && g.total == f.total + n && g.counted == f.counted
      && g.windows == RecordedAll(f.windows, Senders(f.failing)[..n], times[..n])
      && g.batch == f.batch && g.published == f.published && g.inFlight == f.inFlight && g.reported == f.reported
      && g.capacity == f.capacity && g.open == f.open && g.queue == f.queue
  {
    hide Recorded, KeyFor, T.Step, Senders;
    if n > 0 {
      RecordAllIsSteps(f, times, n - 1);
      var g := Tallied(f, times, n - 1);
      TallyIsSteps(g, times[n - 1]);
      SenderAt(f.failing, n - 1);
      assert g.failing[0] == f.failing[n - 1] && g.failing[1..] == f.failing[n..];
      assert Senders(f.failing)[..n][..n - 1] == Senders(f.failing)[..n - 1] && times[..n][..n - 1] == times[..n - 1];
    }
  }

  ghost function Recovered(f: T.Fork, order: seq<DropWindow>, reported: bool): T.Fork {
    T.Step(T.Step(f, T.Take(order)), T.Report(reported))
  }

  /** A recovery is two steps of the drain with nothing in between. */
  lemma RecoverIsSteps(f: T.Fork, order: seq<DropWindow>, reported: bool)
    requires f.inFlight == [] && Lists(order, f.windows)
    ensures
      Recovered(f, order, reported) ==
      f.(windows := if reported then map[] else f.windows, reported := if reported then f.reported + order else f.reported)
  {
    hide Lists, Restored;
    PutBackAsTheyWere(f.windows, order);
  }

  /** A flush: the batch published, or recorded event by event, then a recovery. */
  ghost function Flushed(f: T.Fork, accepted: bool, times: seq<i64>, order: seq<DropWindow>, reported: bool): T.Fork
    requires |times| == |f.batch|
  {
    var flushed := T.Step(f, T.Flush(accepted));
    Recovered(if accepted then flushed else Tallied(flushed, times, |times|), order, reported)
  }

  /** What those steps come to. */
  lemma FlushIsSteps(f: T.Fork, accepted: bool, times: seq<i64>, order: seq<DropWindow>, reported: bool)
    requires f.failing == [] && f.inFlight == [] && |times| == |f.batch|
    requires Lists(order, if accepted then f.windows else RecordedAll(f.windows, Senders(f.batch), times))
    ensures
      var done := Flushed(f, accepted, times, order, reported);
      var recorded := if accepted then f.windows else RecordedAll(f.windows, Senders(f.batch), times);
      && Visible(done) ==
         Visible(f).(batch := [], total := f.total + (if accepted then 0 else |f.batch|), windows := if reported then map[] else recorded)
      && done.published == f.published + (if accepted then f.batch else [])
      && done.reported == f.reported + (if reported then order else [])
  {
    hide Recorded, RecordedAll, Lists, Restored, Senders, Tallied, Recovered;
    var flushed := T.Step(f, T.Flush(accepted));
    assert f.published + [] == f.published && f.reported + [] == f.reported;
    if accepted {
      RecoverIsSteps(flushed, order, reported);
    } else {
      assert Senders(f.batch)[..|times|] == Senders(f.batch) && times[..|times|] == times;
      assert flushed.failing == f.batch && f.batch[|times|..] == [];
      RecordAllIsSteps(flushed, times, |times|);
      hide T.Step;
      RecoverIsSteps(Tallied(flushed, times, |times|), order, reported);
    }
  }

  // ----- What the drop events say -----

  /** A drop event tells which chain lost how many events, and when: it starts with the
      window, and lasts as long to the millisecond, as far as its columns go. */
  lemma DropEventSays(w: DropWindow, nodeId: Str, id: EventId)
    ensures
      var e := DropEvent(w, nodeId, id);
      && e.Chain() == w.chain && e.eventId == id && e.nodeId == nodeId && e.pins.systemId == w.chain.systemId
      && e.eventType == Ascii("telemetry.dropped") && e.outcome == Ascii("error")
      && e.pins.riskFlags == [Ascii("telemetry_dropped")]
      && (w.count <= 0xFFFF_FFFF ==> e.metrics.tokensOut == w.count)
      && (w.count > 0xFFFF_FFFF ==> e.metrics.tokensOut == 0xFFFF_FFFF)
      && e.occurredAt == w.from && e.metrics.latencyMs <= 0xFFFF_FFFF
      && (w.from <= w.to ==> e.occurredAt + 1_000 * e.metrics.latencyMs <= w.to)
      && (w.from <= w.to && e.metrics.latencyMs < 0xFFFF_FFFF ==> w.to < e.occurredAt + 1_000 * (e.metrics.latencyMs + 1))
      && (w.to < w.from ==> e.metrics.latencyMs == 0)
  {
    hide NullBaseline;
  }

  /** What the drop events of a chain add up to. */
  function Reported(events: seq<EmittedEvent>, k: ChainId): nat {
    if events == [] then 0
    else
      var e := events[|events| - 1];
      Reported(events[..|events| - 1], k) + if e.Chain() == k then e.metrics.tokensOut else 0
  }

  lemma {:induction false} ReportedIsCarried(events: seq<EmittedEvent>, windows: seq<DropWindow>, nodeId: Str, k: ChainId)
    requires EventsOf(events, windows, nodeId)
    ensures Reported(events, k) == T.CarriedIn(windows, k)
  {
    hide DropEvent;
    if events != [] {
      var n := |events| - 1;
      assert EventsOf(events[..n], windows[..n], nodeId);
      ReportedIsCarried(events[..n], windows[..n], nodeId, k);
      DropEventSays(windows[n], nodeId, events[n].eventId);
    }
  }

  /** In every run, the drop events published of a key add up to what was charged to it,
      less what is open, in flight or gone down with the receiver, exactly if each
      window published fits 32 bits; they never claim more. */
  lemma ReportedAddsUp(capacity: nat, actions: seq<T.Action>, events: seq<EmittedEvent>, nodeId: Str, k: ChainId)
    requires EventsOf(events, T.Run(capacity, actions).reported, nodeId)
    ensures
      var f := T.Run(capacity, actions);
      var claimed := Reported(events, k) + CountAt(f.windows, k) + CountIn(f.inFlight, k) + CountIn(f.forgotten, k);
      && claimed <= T.Charges(f.charged, k)
      && (claimed == T.Charges(f.charged, k) <==> forall w | w in f.reported && w.chain == k :: w.count <= 0xFFFF_FFFF)
  {
    hide T.Run, T.Charges, T.CarriedIn, DropEvent, CountAt, CountIn, T.EventsConserved, T.TotalExact, T.ChargedRight;
    T.RunConserves(capacity, actions);
    ReportedIsCarried(events, T.Run(capacity, actions).reported, nodeId, k);
    T.CarriedExactIff(T.Run(capacity, actions).reported, k);
  }

  /** The drop event's span of milliseconds. */
  predicate Spans(e: EmittedEvent, t: i64) {
    e.occurredAt <= t && (t < e.occurredAt + 1_000 * (e.metrics.latencyMs + 1) || e.metrics.latencyMs == 0xFFFF_FFFF)
  }

  /** As long as the stamps of a key do not go back, and once nothing of it is open, in
      flight or gone, each drop of the key falls in the span of a drop event of it. */
  lemma ReportedCovers(capacity: nat, actions: seq<T.Action>, events: seq<EmittedEvent>, nodeId: Str, k: ChainId, x: T.Charged)
    requires EventsOf(events, T.Run(capacity, actions).reported, nodeId) && T.Steady(T.Run(capacity, actions).charged, k)
    requires
      var f := T.Run(capacity, actions);
      && x in f.charged && x.key == k && k !in f.windows
      && forall w | w in f.inFlight + f.forgotten :: w.chain != k
    ensures exists e :: e in events && e.Chain() == k && Spans(e, x.at)
  {
    hide T.Run, DropEvent;
    T.RunCovers(capacity, actions, k);
    var f := T.Run(capacity, actions);
    var w :| w in f.reported && w.chain == k && w.from <= x.at <= w.to;
    var i :| 0 <= i < |f.reported| && f.reported[i] == w;
    var e := events[i];
    assert e in events && e == DropEvent(w, nodeId, e.eventId);
    DropEventSays(w, nodeId, e.eventId);
    assert Spans(e, x.at);
  }
}
