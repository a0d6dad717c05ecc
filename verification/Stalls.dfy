/**
 * What a gap does to sealing: the chain is never sealed past it, and one that is
 * due ends every tick before the chains after it.
 */
module Stalls {
  import opened Wrappers
  import opened Hashing
  import opened Merkle
  import opened Canon
  import opened Events
  import opened Chain
  import opened Verify
  import opened Positions
  import opened Checkpoints
  import opened Checkpointer

  /** Every position up to the last one sealed has its row. */
  lemma SealedIsComplete(H: HashFn, cfg: Config, chain: ChainId, rows: seq<AuditEvent>, cps: seq<Checkpoint>)
    requires ChainSound(H, cfg, chain, rows, cps)
    ensures Complete(rows, 1, SealedTo(cps)) && SealedTo(cps) <= HeadPos(rows)
  {
    hide TreeRoot, VerifyCheckpoint, SealedTo, Furthest, Holds, Rising, Between, HeadPos;
    FurthestIsMax(cps);
    forall n | 1 <= n <= SealedTo(cps)
      ensures Holds(rows, n)
    {
      assert SealedAt(cps, n);
      var cp :| cp in cps && cp.body.seqFrom <= n <= cp.body.seqTo;
      assert Seals(H, cfg, chain, rows, cp);
    }
    Reach(H, cfg, chain, rows, cps);
  }

  lemma Reach(H: HashFn, cfg: Config, chain: ChainId, rows: seq<AuditEvent>, cps: seq<Checkpoint>)
    requires ChainSound(H, cfg, chain, rows, cps)
    ensures SealedTo(cps) <= HeadPos(rows)
  {
    hide TreeRoot, VerifyCheckpoint, NoHole, Rising, Between, HeadPos;
    FurthestIsMax(cps);
  }

  /** A due chain ends the tick exactly if a position above the last one sealed has
      no row. */
  lemma StuckIff(H: HashFn, cfg: Config, chain: ChainId, rows: seq<AuditEvent>, cps: seq<Checkpoint>, now: i64)
    requires ChainSound(H, cfg, chain, rows, cps) && DueChain(cfg, rows, cps, now)
    ensures Stuck(cfg, rows, cps, now) <==> !Complete(rows, SealedTo(cps) + 1, HeadPos(rows))
    ensures Stuck(cfg, rows, cps, now) <==> !Complete(rows, 1, HeadPos(rows))
  {
    hide TreeRoot, VerifyCheckpoint, SealedTo, Seals, NoHole, Due, Holds, Rising, Between, HeadPos;
    CountIff(rows, SealedTo(cps) + 1, HeadPos(rows));
    SealedIsComplete(H, cfg, chain, rows, cps);
  }

  // ----- Several replicas -----

  lemma StepAppends(H: HashFn, cfg: Config, w: World, a: Action, chain: ChainId)
    ensures
      var rows, rows' := Of(w.rows, chain), Of(Step(H, cfg, w, a).rows, chain);
      rows' == rows || (a.Append? && rows' == rows + a.more && Rising(rows'))
  {
    hide SealRange, Furthest, SealedTo, Due, Between, Rising;
  }

  /** A position below the head without a row stays without one, whatever is
      appended and whatever replicas do. */
  lemma {:induction false} RunKeepsGap(H: HashFn, cfg: Config, actions: seq<Action>, more: seq<Action>, chain: ChainId, g: nat)
    requires
      var rows := Of(Run(H, cfg, actions).rows, chain);
      g <= HeadPos(rows) && !Holds(rows, g)
    ensures
      var rows := Of(Run(H, cfg, actions + more).rows, chain);
      g <= HeadPos(rows) && !Holds(rows, g)
    decreases |more|
  {
    hide Step, Holds, HeadPos;
    if more == [] {
      assert actions + more == actions;
    } else {
      var n := |more| - 1;
      RunKeepsGap(H, cfg, actions, more[..n], chain, g);
      assert (actions + more)[..|actions| + n] == actions + more[..n];
      var w := Run(H, cfg, actions + more[..n]);
      StepAppends(H, cfg, w, more[n], chain);
      if Of(Step(H, cfg, w, more[n]).rows, chain) != Of(w.rows, chain) {
        GapStays(Of(w.rows, chain), more[n].more, g);
      }
    }
  }

  /** A chain with a gap is never sealed past it: not in the run that has it, nor in
      any that goes on from there. */
  lemma GapStopsSealing(H: HashFn, cfg: Config, actions: seq<Action>, more: seq<Action>, chain: ChainId, g: nat)
    requires cfg.scheme.Correct() && 1 <= g
    requires
      var rows := Of(Run(H, cfg, actions).rows, chain);
      g <= HeadPos(rows) && !Holds(rows, g)
    ensures
      var cps := Of(Run(H, cfg, actions + more).sealed, chain);
      SealedTo(cps) < g && forall cp | cp in cps :: cp.body.seqTo < g
  {
    hide Run, Holds, HeadPos, SealedTo;
    RunKeepsGap(H, cfg, actions, more, chain, g);
    ReplicasLeaveNoHole(H, cfg, actions + more);
    var w := Run(H, cfg, actions + more);
    assert ChainSound(H, cfg, chain, Of(w.rows, chain), Of(w.sealed, chain));
    SealedIsComplete(H, cfg, chain, Of(w.rows, chain), Of(w.sealed, chain));
    FurthestIsMax(Of(w.sealed, chain));
  }

  // ----- One checkpointer, tick after tick -----

  /** What stays due stays stuck: later ticks, on a clock that does not go back, find
      the gap again, however many rows have come. */
  lemma StaysStuck(
    H: HashFn, cfg: Config, chain: ChainId, rows: seq<AuditEvent>, more: seq<AuditEvent>, cps: seq<Checkpoint>, now: i64, later: i64)
    requires ChainSound(H, cfg, chain, rows, cps) && ChainSound(H, cfg, chain, rows + more, cps)
    requires Stuck(cfg, rows, cps, now) && now <= later
    ensures Stuck(cfg, rows + more, cps, later)
  {
    hide TreeRoot, VerifyCheckpoint, SealedTo, Furthest, Seals, NoHole, Holds, Rising, Between, HeadPos, Unbroken;
    GapStays(rows, more, 0);
    assert DueChain(cfg, rows + more, cps, later);
    StuckIff(H, cfg, chain, rows, cps, now);
    StuckIff(H, cfg, chain, rows + more, cps, later);
    if Complete(rows + more, SealedTo(cps) + 1, HeadPos(rows + more)) {
      forall n | SealedTo(cps) + 1 <= n <= HeadPos(rows)
        ensures Holds(rows, n)
      {
        GapStays(rows, more, n);
      }
    }
  }

  /** `c` is listed before `x`. */
  predicate Precedes(chains: seq<ChainId>, c: ChainId, x: ChainId) {
    exists i, j :: 0 <= i < j < |chains| && chains[i] == c && chains[j] == x
  }

  /** A tick that lists a stuck chain before another reaches neither. */
  lemma StuckStarves(H: HashFn, cfg: Config, t: Ticking, before: Table<Checkpoint>, after: Table<Checkpoint>, c: ChainId, x: ChainId)
    requires TickedBy(H, cfg, t, before, after) && Precedes(t.chains, c, x)
    requires Stuck(cfg, Of(t.rows, c), Of(before, c), t.now)
    ensures Of(after, c) == Of(before, c) && Of(after, x) == Of(before, x)
  {
    hide Stuck, Dealt;
    var i, j :| 0 <= i < j < |t.chains| && t.chains[i] == c && t.chains[j] == x;
    assert t.done <= i;
    assert c !in t.chains[..t.done] && x !in t.chains[..t.done];
  }

  /** Ticks one after another on a clock that does not go back, with rows added in
      between. */
  ghost predicate Ticks(H: HashFn, cfg: Config, ts: seq<Ticking>, sealed: seq<Table<Checkpoint>>, c: ChainId) {
    && |sealed| == |ts| + 1
    && (forall i :: 0 <= i < |ts| ==> TickedBy(H, cfg, ts[i], sealed[i], sealed[i + 1]))
    && (forall i :: 0 <= i < |ts| ==> ts[0].now <= ts[i].now && Of(ts[0].rows, c) <= Of(ts[i].rows, c))
    && (forall i :: 0 <= i < |ts| ==> Rising(Of(ts[i].rows, c)) && HeadPos(Of(ts[i].rows, c)) < U64_MAX)
  }

  /** Once a chain with a gap is due, no later tick seals it or any chain listed after
      it, however often it runs and whatever is appended. */
  lemma {:induction false} StarvedForGood(
    H: HashFn, cfg: Config, ts: seq<Ticking>, sealed: seq<Table<Checkpoint>>, c: ChainId, x: ChainId, n: nat)
    requires n <= |ts| && Ticks(H, cfg, ts, sealed, c) && (forall i :: 0 <= i < |ts| ==> Precedes(ts[i].chains, c, x))
    requires ts != [] ==>
               ChainSound(H, cfg, c, Of(ts[0].rows, c), Of(sealed[0], c))
               && Stuck(cfg, Of(ts[0].rows, c), Of(sealed[0], c), ts[0].now)
    ensures Of(sealed[n], c) == Of(sealed[0], c) && Of(sealed[n], x) == Of(sealed[0], x)
  {
    hide TickedBy, ChainSound, Stuck, Precedes, Rising, HeadPos;
    if n > 0 {
      StarvedForGood(H, cfg, ts, sealed, c, x, n - 1);
      var rows, now, cps := Of(ts[0].rows, c), Of(ts[n - 1].rows, c), Of(sealed[0], c);
      var more := now[|rows|..];
      assert now == rows + more;
      RowsGrow(H, cfg, c, rows, more, cps);
      StaysStuck(H, cfg, c, rows, more, cps, ts[0].now, ts[n - 1].now);
      StuckStarves(H, cfg, ts[n - 1], sealed[n - 1], sealed[n], c, x);
    }
  }
}
