/**
 * Drop accounting: windows of lost events by chain, taken when the bus may be
 * back and restored if it was not.
 */
module Drops {
  import opened Wrappers
  import opened Hashing
  import opened Canon
  import opened Events
  import opened Cursors

  const MAX_TRACKED_CHAINS: nat := 4096

  const U32_MAX: nat := 0xFFFF_FFFF

  /** Where drops go once the table is full. */
  const OVERFLOW: ChainId := ChainId(UNKNOWN, UNKNOWN)

  datatype Span = Span(count: nat, first: i64, last: i64)

  datatype DropWindow = DropWindow(chain: ChainId, count: nat, from: i64, to: i64)

  type Windows = map<ChainId, Span>

  function KeyFor(ws: Windows, c: ChainId): ChainId {
    if |ws| >= MAX_TRACKED_CHAINS && c !in ws then OVERFLOW else c
  }

  /** One more drop, at `now`. */
  function Recorded(ws: Windows, c: ChainId, now: i64): Windows {
    var k := KeyFor(ws, c);
    ws[k := if k in ws then Span(ws[k].count + 1, ws[k].first, now) else Span(1, now, now)]
  }

  function Min(a: i64, b: i64): i64 { if a <= b then a else b }

  function Max(a: i64, b: i64): i64 { if a >= b then a else b }

  function PutBack(ws: Windows, w: DropWindow): Windows {
    ws[w.chain :=
       if w.chain in ws then Span(ws[w.chain].count + w.count, Min(ws[w.chain].first, w.from), Max(ws[w.chain].last, w.to))
       else Span(w.count, w.from, w.to)]
  }

  function Restored(ws: Windows, taken: seq<DropWindow>): Windows {
    if taken == [] then ws else PutBack(Restored(ws, taken[..|taken| - 1]), taken[|taken| - 1])
  }

  /** The windows of the table, one each, in any order. */
  ghost predicate Lists(taken: seq<DropWindow>, ws: Windows) {
    && (forall i, j :: 0 <= i < j < |taken| ==> taken[i].chain != taken[j].chain)
    && (forall w | w in taken :: w.chain in ws && ws[w.chain] == Span(w.count, w.from, w.to))
    && (forall k | k in ws :: exists w :: w in taken && w.chain == k)
  }

  /** What the event of a window says was lost: the column is 32 bits wide. */
  function Carried(w: DropWindow): nat {
    if w.count <= U32_MAX then w.count else U32_MAX
  }

  function LengthMs(w: DropWindow): u64 {
    var ms := if w.to > w.from then (w.to - w.from) / 1_000 else 0;
    if ms <= U32_MAX then ms else U32_MAX
  }

  /** The hole, as an event: when it starts, how long it was, how many were lost,
      in the chain that lost them. */
  function DropEvent(w: DropWindow, nodeId: Str, eventId: EventId): EmittedEvent {
    EmittedEvent(
      w.chain.tenantId, w.chain.systemId, eventId, [], 0, w.from, nodeId, Ascii("telemetry.dropped"), Ascii("error"),
      NullBaseline().(systemId := w.chain.systemId, riskFlags := [Ascii("telemetry_dropped")]), GENESIS, GENESIS,
      Metrics([], 0, LengthMs(w), 0, 0, Carried(w), Ascii("telemetry_dropped")))
  }

  // ----- Counting -----

  function CountAt(ws: Windows, k: ChainId): nat {
    if k in ws then ws[k].count else 0
  }

  function CountIn(taken: seq<DropWindow>, k: ChainId): nat {
    if taken == [] then 0
    else
      CountIn(taken[..|taken| - 1], k) + if taken[|taken| - 1].chain == k then taken[|taken| - 1].count else 0
  }

  lemma {:induction false} RestoreCounts(ws: Windows, taken: seq<DropWindow>, k: ChainId)
    ensures CountAt(Restored(ws, taken), k) == CountAt(ws, k) + CountIn(taken, k)
  {
    if taken != [] {
      RestoreCounts(ws, taken[..|taken| - 1], k);
    }
  }

  lemma {:induction false} NoneCounted(taken: seq<DropWindow>, k: ChainId)
    requires forall w | w in taken :: w.chain != k
    ensures CountIn(taken, k) == 0
  {
    if taken != [] {
      NoneCounted(taken[..|taken| - 1], k);
    }
  }

  lemma {:induction false} OneCounted(taken: seq<DropWindow>, i: nat)
    requires i < |taken| && forall a, b :: 0 <= a < b < |taken| ==> taken[a].chain != taken[b].chain
    ensures CountIn(taken, taken[i].chain) == taken[i].count
  {
    var n := |taken| - 1;
    if i == n {
      NoneCounted(taken[..n], taken[n].chain);
    } else {
      OneCounted(taken[..n], i);
    }
  }

  /** Taking the table loses no count. */
  lemma ListingCounts(ws: Windows, taken: seq<DropWindow>, k: ChainId)
    requires Lists(taken, ws)
    ensures CountIn(taken, k) == CountAt(ws, k)
  {
    if k in ws {
      var w :| w in taken && w.chain == k;
      var i :| 0 <= i < |taken| && taken[i] == w;
      OneCounted(taken, i);
    } else {
      NoneCounted(taken, k);
    }
  }

  // ----- When the hole is -----

  predicate Covers(ws: Windows, k: ChainId, t: i64) {
    k in ws && ws[k].first <= t <= ws[k].last
  }

  ghost predicate CoversIn(taken: seq<DropWindow>, k: ChainId, t: i64) {
    exists w :: w in taken && w.chain == k && w.from <= t <= w.to
  }

  /** A record at `now` keeps every moment its window covered, and covers `now`,
      exactly if it is stamped before neither bound of the window. */
  lemma RecordCoversIff(ws: Windows, c: ChainId, now: i64)
    ensures
      var k, after := KeyFor(ws, c), Recorded(ws, c, now);
      (Covers(after, k, now) && forall t: i64 | Covers(ws, k, t) :: Covers(after, k, t)) <==>
      (k in ws ==> now >= ws[k].first && now >= ws[k].last)
  {
    var k, after := KeyFor(ws, c), Recorded(ws, c, now);
    if k in ws && ws[k].first <= now < ws[k].last {
      assert Covers(ws, k, ws[k].last) && !Covers(after, k, ws[k].last);
    }
  }

  lemma {:induction false} RestoreCovers(ws: Windows, taken: seq<DropWindow>, k: ChainId, t: i64)
    requires Covers(ws, k, t) || CoversIn(taken, k, t)
    ensures Covers(Restored(ws, taken), k, t)
  {
    if taken != [] {
      var n := |taken| - 1;
      assert taken == taken[..n] + [taken[n]];
      if Covers(ws, k, t) || CoversIn(taken[..n], k, t) {
        RestoreCovers(ws, taken[..n], k, t);
      }
    }
  }

  lemma ListingCovers(ws: Windows, taken: seq<DropWindow>, k: ChainId, t: i64)
    requires Lists(taken, ws) && Covers(ws, k, t)
    ensures CoversIn(taken, k, t)
  {
    var w :| w in taken && w.chain == k;
  }

  /** Windows that are put back into an empty table make it what it was. */
  lemma PutBackAsTheyWere(ws: Windows, taken: seq<DropWindow>)
    requires Lists(taken, ws)
    ensures Restored(map[], taken) == ws
  {
    PartlyPutBack(ws, taken, |taken|);
    assert taken[..|taken|] == taken;
    forall k
      ensures k in Restored(map[], taken) <==> k in ws
    {
    }
  }

  lemma {:induction false} PartlyPutBack(ws: Windows, taken: seq<DropWindow>, n: nat)
    requires Lists(taken, ws) && n <= |taken|
    ensures var back := Restored(map[], taken[..n]);
            && (forall k :: k in back <==> exists i :: 0 <= i < n && taken[i].chain == k)
            && (forall k | k in back :: k in ws && back[k] == ws[k])
  {
    if n > 0 {
      PartlyPutBack(ws, taken, n - 1);
      assert taken[..n][..n - 1] == taken[..n - 1];
      var before, w := Restored(map[], taken[..n - 1]), taken[n - 1];
      assert taken[..n] != [] && taken[..n][|taken[..n]| - 1] == w;
      assert Restored(map[], taken[..n]) == PutBack(before, w);
      hide Restored;
      assert w in taken && w.chain !in before;
      NewlyPutBack(before, w);
    }
  }

  lemma NewlyPutBack(ws: Windows, w: DropWindow)
    requires w.chain !in ws
    ensures PutBack(ws, w) == ws[w.chain := Span(w.count, w.from, w.to)]
  {
  }

  /** Recording never grows the table past one overflow entry. */
  lemma RecordKeepsTable(ws: Windows, c: ChainId, now: i64)
    requires |ws| <= 4096 || (|ws| == 4097 && OVERFLOW in ws)
    ensures var after := Recorded(ws, c, now);
            |after| <= 4096 || (|after| == 4097 && OVERFLOW in after)
  {
    var k, after := KeyFor(ws, c), Recorded(ws, c, now);
    assert after.Keys == ws.Keys + {k};
    assert |after| == |after.Keys| && |ws| == |ws.Keys|;
  }

  // ----- The counter -----

  class DropCounter {
    var total: nat
    var windows: Windows

    constructor ()
      ensures total == 0 && windows == map[]
    {
      total, windows := 0, map[];
    }

    method Record(c: ChainId) returns (ghost now: i64)
      modifies this
      ensures total == old(total) + 1 && windows == Recorded(old(windows), c, now)
    {
      var clock: i64 := *;
      now := clock;
      total := total + 1;
      var key := if |windows| >= MAX_TRACKED_CHAINS && c !in windows then OVERFLOW else c;
      if key in windows {
        windows := windows[key := windows[key].(count := windows[key].count + 1, last := clock)];
      } else {
        windows := windows[key := Span(1, clock, clock)];
      }
    }

    /** Take and reset. */
    method Take() returns (taken: seq<DropWindow>)
      modifies this
      ensures windows == map[] && total == old(total) && Lists(taken, old(windows))
    {
      var ws := windows;
      windows := map[];
      taken := [];
      var left := ws.Keys;
      while left != {}
        invariant left <= ws.Keys
        invariant forall i, j :: 0 <= i < j < |taken| ==> taken[i].chain != taken[j].chain
        invariant forall w | w in taken :: w.chain in ws && w.chain !in left && ws[w.chain] == Span(w.count, w.from, w.to)
        invariant forall k | k in ws && k !in left :: exists w :: w in taken && w.chain == k
        decreases left
      {
        var k :| k in left;
        var w := DropWindow(k, ws[k].count, ws[k].first, ws[k].last);
        ghost var before := taken;
        taken := taken + [w];
        left := left - {k};
        forall x | x in ws && x !in left
          ensures exists y :: y in taken && y.chain == x
        {
          if x == k {
            assert w in taken;
          } else {
            var y :| y in before && y.chain == x;
            assert y in taken;
          }
        }
      }
    }

    /** Put windows back. */
    method Restore(taken: seq<DropWindow>)
      modifies this
      ensures windows == Restored(old(windows), taken) && total == old(total)
    {
      for n := 0 to |taken|
        invariant windows == Restored(old(windows), taken[..n]) && total == old(total)
      {
        var w := taken[n];
        assert taken[..n + 1][..n] == taken[..n];
        if w.chain in windows {
          var s := windows[w.chain];
          windows := windows[w.chain := Span(s.count + w.count, Min(s.first, w.from), Max(s.last, w.to))];
        } else {
          windows := windows[w.chain := Span(w.count, w.from, w.to)];
        }
      }
      assert taken[..|taken|] == taken;
    }
  }
}
