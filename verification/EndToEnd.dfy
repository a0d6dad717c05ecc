/**
 * The whole path: whatever the ingester and the checkpointers went through, a
 * pack with a chain's rows and checkpoints passes every check of the offline
 * verifier.
 */
module EndToEnd {
  import opened Wrappers
  import opened Hashing
  import opened Merkle
  import opened Canon
  import opened Events
  import opened Chain
  import opened Verify
  import opened VerifyTheorems
  import opened Positions
  import opened Checkpoints
  import opened Attest
  import C = Checkpointer
  import S = Stalls
  import I = IngestRuns
  import B = Batches
  import K = Cursors
  import X = Cutoffs

  lemma GoodRowsBySeq(H: HashFn, chain: ChainId, rows: seq<AuditEvent>)
    requires K.GoodRows(H, chain, rows)
    ensures forall n: nat :: n in BySeq(H, rows) <==> 1 <= n <= |rows|
    ensures forall n | 1 <= n <= |rows| :: BySeq(H, rows)[n] == StoredHashes(rows)[n - 1]
  {
    hide BySeq, StoredHashes, K.GoodRows;
    forall n: nat
      ensures n in BySeq(H, rows) <==> 1 <= n <= |rows|
      ensures 1 <= n <= |rows| ==> BySeq(H, rows)[n] == StoredHashes(rows)[n - 1]
    {
      RowBySeq(H, chain, rows, n);
    }
  }

  lemma RowBySeq(H: HashFn, chain: ChainId, rows: seq<AuditEvent>, n: nat)
    requires K.GoodRows(H, chain, rows)
    ensures n in BySeq(H, rows) <==> 1 <= n <= |rows|
    ensures 1 <= n <= |rows| ==> BySeq(H, rows)[n] == rows[n - 1].eventHash
  {
    hide BySeq, EventHash, LastAt, K.GoodRows;
    BySeqIsLast(H, rows, n);
    if 1 <= n <= |rows| {
      RowIsLast(H, chain, rows, n);
    } else {
      NoRowThere(H, chain, rows, n);
    }
  }

  lemma RowIsLast(H: HashFn, chain: ChainId, rows: seq<AuditEvent>, n: nat)
    requires K.GoodRows(H, chain, rows) && 1 <= n <= |rows|
    ensures LastAt(rows, n, rows[n - 1]) && EventHash(H, rows[n - 1]) == Ok(rows[n - 1].eventHash)
  {
    hide EventHash, Linked;
    assert rows[n - 1] in rows;
  }

  lemma NoRowThere(H: HashFn, chain: ChainId, rows: seq<AuditEvent>, n: nat)
    requires K.GoodRows(H, chain, rows) && !(1 <= n <= |rows|)
    ensures !exists e :: LastAt(rows, n, e)
  {
    hide Linked, Rehashes;
  }

  lemma GoodInOrder(H: HashFn, chain: ChainId, rows: seq<AuditEvent>, from: nat, to: nat)
    requires K.GoodRows(H, chain, rows) && 1 <= from <= to + 1 && to <= |rows|
    ensures HeadPos(rows) == |rows| && Between(rows, from, to) == rows[from - 1..to]
  {
    hide Linked, Rehashes, Between;
    InOrder(rows, from, to);
  }

  /** The leaves a pack of good rows offers are the hashes stored in them. */
  lemma LeavesAreStored(H: HashFn, chain: ChainId, rows: seq<AuditEvent>, body: CheckpointBody)
    requires K.GoodRows(H, chain, rows) && 1 <= body.seqFrom <= body.seqTo <= |rows|
    ensures LeavesFor(H, rows, body) == StoredHashes(Between(rows, body.seqFrom, body.seqTo))
    ensures LeavesFor(H, rows, body) == StoredHashes(rows)[body.seqFrom - 1..body.seqTo]
    ensures |LeavesFor(H, rows, body)| == body.TreeSize()
  {
    hide BySeq, K.GoodRows, Between;
    GoodRowsBySeq(H, chain, rows);
    GoodInOrder(H, chain, rows, body.seqFrom, body.seqTo);
    var leaves := Collect(BySeq(H, rows), body.seqFrom, body.seqTo).value;
    forall i | 0 <= i < |leaves|
      ensures leaves[i] == StoredHashes(rows)[body.seqFrom - 1..body.seqTo][i]
    {
      assert leaves[i] == BySeq(H, rows)[body.seqFrom + i];
    }
  }

  /** Every checkpoint of a chain is attested by the chain's rows, under the
      checkpointer's own public key. */
  lemma SealedIsAttested(H: HashFn, cfg: C.Config, chain: ChainId, rows: seq<AuditEvent>, cps: seq<Checkpoint>, trusted: Trusted, cp: Checkpoint)
    requires K.GoodRows(H, chain, rows) && C.ChainSound(H, cfg, chain, rows, cps) && cp in cps
    requires cfg.keyId in trusted && trusted[cfg.keyId] == cfg.scheme.publicKey(cfg.secret)
    ensures AttestOne(H, cfg.scheme, cp, BySeq(H, rows), trusted) == Verified(cfg.keyId)
  {
    hide K.GoodRows, BySeq, C.Seals, C.NoHole, HeadPos, Rising, AttestOne;
    assert C.Seals(H, cfg, chain, rows, cp);
    assert HeadPos(rows) < U64_MAX;
    SealsIsAttested(H, cfg, chain, rows, trusted, cp);
  }

  lemma SealsIsAttested(H: HashFn, cfg: C.Config, chain: ChainId, rows: seq<AuditEvent>, trusted: Trusted, cp: Checkpoint)
    requires K.GoodRows(H, chain, rows) && C.Seals(H, cfg, chain, rows, cp) && HeadPos(rows) < U64_MAX
    requires cfg.keyId in trusted && trusted[cfg.keyId] == cfg.scheme.publicKey(cfg.secret)
    ensures AttestOne(H, cfg.scheme, cp, BySeq(H, rows), trusted) == Verified(cfg.keyId)
  {
    hide K.GoodRows, BySeq, TreeRoot, VerifyCheckpoint, Collect, HeadPos, Between, Rising;
    GoodInOrder(H, chain, rows, 1, 0);
    LeavesAreStored(H, chain, rows, cp.body);
  }

  lemma SealedPosition(cps: seq<Checkpoint>, n: nat)
    requires C.NoHole(cps) && 1 <= n <= C.SealedTo(cps)
    ensures exists cp :: cp in cps && cp.body.seqFrom <= n <= cp.body.seqTo
  {
    hide C.SealedTo;
    assert C.SealedAt(cps, n);
  }

  /** And every row below the last sealed position can be shown to anyone who
      holds the checkpoint and the key. */
  lemma SealedIsProvable(H: HashFn, cfg: C.Config, chain: ChainId, rows: seq<AuditEvent>, cps: seq<Checkpoint>, n: nat)
    requires K.GoodRows(H, chain, rows) && C.ChainSound(H, cfg, chain, rows, cps) && 1 <= n <= C.SealedTo(cps)
    ensures exists cp ::
              && cp in cps && cp.body.seqFrom <= n <= cp.body.seqTo <= |rows|
              && var proof := ProveInclusion(H, cp, LeavesFor(H, rows, cp.body), n);
              && proof.Ok? && proof.value.eventHash == rows[n - 1].eventHash
              && VerifyInclusion(H, cfg.scheme, cp, proof.value, cfg.scheme.publicKey(cfg.secret)) == Ok(())
  {
    hide K.GoodRows, BySeq, TreeRoot, VerifyCheckpoint, LeavesFor, AuditPath, Recompute, C.SealedTo, BitLength, HeadPos, Between, Rising, Complete, C.NoHole;
    SealedPosition(cps, n);
    var cp :| cp in cps && cp.body.seqFrom <= n <= cp.body.seqTo;
    assert C.Seals(H, cfg, chain, rows, cp);
    GoodInOrder(H, chain, rows, 1, 0);
    LeavesAreStored(H, chain, rows, cp.body);
    ProofComplete(H, LeavesFor(H, rows, cp.body), n - cp.body.seqFrom);
  }

  /** Sealing leaves no hole, so the attested runs are one run from 1. */
  lemma AttestedIsOneRun(
    H: HashFn, cfg: C.Config, chain: ChainId, rows: seq<AuditEvent>, cps: seq<Checkpoint>, trusted: Trusted, runs: seq<Range>)
    requires K.GoodRows(H, chain, rows) && C.ChainSound(H, cfg, chain, rows, cps)
    requires cfg.keyId in trusted && trusted[cfg.keyId] == cfg.scheme.publicKey(cfg.secret)
    requires var verdicts := AttestPack(H, cfg.scheme, Pack(rows, cps), trusted);
             && Separated(runs)
             && (forall n: nat :: Covered(runs, n) <==>
                   exists v :: v in verdicts && v.attestation.Verified? && v.seqFrom <= n <= v.seqTo)
             && ((forall v | v in verdicts && v.attestation.Verified? :: v.seqFrom <= v.seqTo) ==> Proper(runs))
    ensures runs == if C.SealedTo(cps) == 0 then [] else [(1, C.SealedTo(cps))]
  {
    hide K.GoodRows, BySeq, AttestOne, C.SealedTo, C.Seals, Separated, Proper;
    var verdicts := AttestPack(H, cfg.scheme, Pack(rows, cps), trusted);
    forall v | v in verdicts
      ensures v.attestation.Verified? && 1 <= v.seqFrom <= v.seqTo <= C.SealedTo(cps)
    {
      VerdictOf(H, cfg, chain, rows, cps, trusted, v);
    }
    forall n: nat
      ensures Covered(runs, n) <==> 1 <= n <= C.SealedTo(cps)
    {
      if 1 <= n <= C.SealedTo(cps) {
        assert C.SealedAt(cps, n);
        var cp :| cp in cps && cp.body.seqFrom <= n <= cp.body.seqTo;
        var i :| 0 <= i < |cps| && cps[i] == cp;
        assert verdicts[i] in verdicts && verdicts[i].seqFrom == cp.body.seqFrom && verdicts[i].seqTo == cp.body.seqTo;
      }
    }
    OneRun(runs, C.SealedTo(cps));
  }

  lemma VerdictOf(
    H: HashFn, cfg: C.Config, chain: ChainId, rows: seq<AuditEvent>, cps: seq<Checkpoint>, trusted: Trusted, v: CheckpointVerdict)
    requires K.GoodRows(H, chain, rows) && C.ChainSound(H, cfg, chain, rows, cps)
    requires cfg.keyId in trusted && trusted[cfg.keyId] == cfg.scheme.publicKey(cfg.secret)
    requires v in AttestPack(H, cfg.scheme, Pack(rows, cps), trusted)
    ensures v.attestation.Verified? && 1 <= v.seqFrom <= v.seqTo <= C.SealedTo(cps)
  {
    hide K.GoodRows, BySeq, AttestOne, C.SealedTo, C.NoHole, VerifyCheckpoint;
    var verdicts := AttestPack(H, cfg.scheme, Pack(rows, cps), trusted);
    var i :| 0 <= i < |verdicts| && verdicts[i] == v;
    SealedIsAttested(H, cfg, chain, rows, cps, trusted, cps[i]);
    assert C.Seals(H, cfg, chain, rows, cps[i]);
    C.FurthestIsMax(cps);
  }

  /** Whatever the bus delivered, the store refused and the process went through,
      and however the checkpointer replicas interleaved: if a step that left
      something chained and not stored was followed by a restart, and the replicas
      were reading the ingester's store, then the chain verifies from genesis, every
      checkpoint is verified against the rows, and the verified ranges leave
      nothing out up to the last position sealed. */
  lemma EvidenceVerifies(
    H: HashFn, cfg: C.Config, nodeId: Str, steps: seq<I.Step>, actions: seq<C.Action>, chain: ChainId, trusted: Trusted)
    requires cfg.scheme.Correct() && I.Healed(H, nodeId, steps)
    requires C.Of(C.Run(H, cfg, actions).rows, chain) == B.Of(I.Run(H, nodeId, steps).store, chain)
    requires cfg.keyId in trusted && trusted[cfg.keyId] == cfg.scheme.publicKey(cfg.secret)
    ensures
      var rows, cps := B.Of(I.Run(H, nodeId, steps).store, chain), C.Of(C.Run(H, cfg, actions).sealed, chain);
      && Report(H, rows, GENESIS).IsClean()
      && (forall cp | cp in cps :: AttestOne(H, cfg.scheme, cp, BySeq(H, rows), trusted) == Verified(cfg.keyId))
      && (forall n :: 1 <= n <= C.SealedTo(cps) ==> C.SealedAt(cps, n))
      && C.SealedTo(cps) <= |rows|
  {
    hide I.Run, I.Healed, I.LosesAt, I.Whole, C.Run, K.GoodRows, BySeq, AttestOne, C.SealedTo, VerifyCheckpoint, K.Stands, Report, B.HasId, C.SealedAt;
    var rows, cps := B.Of(I.Run(H, nodeId, steps).store, chain), C.Of(C.Run(H, cfg, actions).sealed, chain);
    I.RunSound(H, nodeId, steps);
    C.ReplicasLeaveNoHole(H, cfg, actions);
    I.GoodIsClean(H, chain, rows);
    assert C.ChainSound(H, cfg, chain, rows, cps);
    forall cp | cp in cps
      ensures AttestOne(H, cfg.scheme, cp, BySeq(H, rows), trusted) == Verified(cfg.keyId)
    {
      SealedIsAttested(H, cfg, chain, rows, cps, trusted, cp);
    }
    C.FurthestIsMax(cps);
    SealedWithin(H, cfg, chain, rows, cps);
  }

  lemma SealedWithin(H: HashFn, cfg: C.Config, chain: ChainId, rows: seq<AuditEvent>, cps: seq<Checkpoint>)
    requires K.GoodRows(H, chain, rows) && C.ChainSound(H, cfg, chain, rows, cps)
    ensures C.SealedTo(cps) <= |rows|
  {
    hide K.GoodRows, C.ChainSound, Complete, HeadPos;
    GoodInOrder(H, chain, rows, 1, 0);
    S.SealedIsComplete(H, cfg, chain, rows, cps);
  }

  /** Where an event is stored above a position that was never filled, no replica ever
      seals that position or anything above it. */
  lemma SkippedIsNeverSealed(
    H: HashFn, cfg: C.Config, chain: ChainId, rows: seq<AuditEvent>, event: AuditEvent, actions: seq<C.Action>, more: seq<C.Action>)
    requires cfg.scheme.Correct() && K.GoodRows(H, chain, rows) && event.seqNo > |rows| + 1
    requires C.Of(C.Run(H, cfg, actions).rows, chain) == rows + [event]
    ensures C.SealedTo(C.Of(C.Run(H, cfg, actions + more).sealed, chain)) <= |rows|
  {
    hide C.Run, Linked, Rehashes;
    S.GapStopsSealing(H, cfg, actions, more, chain, |rows| + 1);
  }

  /** So a pull dropped between chaining and storing, and an event of that chain stored
      after it, stop the sealing of the chain where it was. */
  lemma StrandedStopsSealing(
    H: HashFn, cfg: C.Config, nodeId: Str, store: B.Store, writers: B.Writers, taken: seq<EmittedEvent>, ambient: seq<B.Ambient>,
    e: EmittedEvent, stamp: i64, actions: seq<C.Action>, more: seq<C.Action>)
    requires cfg.scheme.Correct() && |taken| == |ambient| && B.Sound(H, store, writers) && B.Room(store, |taken| + 1)
    requires
      var b, c := B.TakeAll(H, nodeId, store, B.StartBatch(writers), taken, ambient), e.Chain();
      && B.Only(X.Stranded(b, false), c) != [] && c in b.writers && e.eventId !in b.writers[c].seen
      && var next := K.Append(H, b.writers[c], e, stamp);
      next.Ok? ==> C.Of(C.Run(H, cfg, actions).rows, c) == B.Of(store, c) + [next.value.1]
    ensures C.SealedTo(C.Of(C.Run(H, cfg, actions + more).sealed, e.Chain())) <= |B.Of(store, e.Chain())|
  {
    hide C.Run, K.GoodRows, K.Stands, K.Append, B.TakeAll, Report, C.SealedTo;
    X.StrandedLeavesGap(H, nodeId, store, writers, taken, ambient, e, stamp);
    var b, c := B.TakeAll(H, nodeId, store, B.StartBatch(writers), taken, ambient), e.Chain();
    SkippedIsNeverSealed(H, cfg, c, B.Of(store, c), K.Append(H, b.writers[c], e, stamp).value.1, actions, more);
  }

  /** The verifier's report on a whole chain names the very root a checkpoint over all
      of it signs. */
  lemma ReportedRootIsSealed(H: HashFn, cfg: C.Config, chain: ChainId, rows: seq<AuditEvent>, cp: Checkpoint)
    requires K.GoodRows(H, chain, rows) && C.Seals(H, cfg, chain, rows, cp) && cp.body.seqFrom == 1 && cp.body.seqTo == |rows|
    ensures var r := Report(H, rows, GENESIS);
            && r.IsClean() && r.rootHash == cp.body.rootHash && r.eventsChecked == |rows|
            && r.seqFrom == 1 && r.seqTo == |rows| && r.headHash == rows[|rows| - 1].eventHash
  {
    hide K.GoodRows, TreeRoot, VerifyCheckpoint, Between, Findings, HeadPos, Complete;
    I.GoodIsClean(H, chain, rows);
    GoodInOrder(H, chain, rows, 1, |rows|);
    assert rows[0..|rows|] == rows;
  }

  // ----- Nothing else is attested -----

  function ChainOf(b: CheckpointBody): ChainId {
    ChainId(b.tenantId, b.systemId)
  }

  /** The bodies are of ranges of the chains' own rows, as checkpointers seal them. */
  ghost predicate OfTheRows(H: HashFn, cfg: C.Config, rows: C.Table<AuditEvent>, bodies: set<CheckpointBody>) {
    forall b | b in bodies :: exists cp: Checkpoint :: cp.body == b && C.Seals(H, cfg, ChainOf(b), C.Of(rows, ChainOf(b)), cp)
  }

  /** Every string hashed for the signed bodies and in recomputing one pack. */
  ghost function PackInputs(H: HashFn, bodies: set<CheckpointBody>, body: CheckpointBody, es: seq<AuditEvent>): set<Bytes> {
    PayloadInputs(body) + AllPayloadInputs(bodies) + AttestInputs(H, es, body)
  }

  /** No forged history is attested.  Where the trusted keys accept only payloads of
      what the checkpointers signed, whoever made the pack, each position of a
      verified checkpoint's range holds the very record that is stored there in the
      checkpoint's chain, or the hashing done ran into a collision. */
  lemma AttestedIsTheChain(
    H: HashFn, cfg: C.Config, rows: C.Table<AuditEvent>, bodies: set<CheckpointBody>, cp: Checkpoint, es: seq<AuditEvent>,
    trusted: Trusted, n: nat)
    requires forall c :: K.GoodRows(H, c, C.Of(rows, c)) && HeadPos(C.Of(rows, c)) < U64_MAX
    requires OfTheRows(H, cfg, rows, bodies) && (forall id | id in trusted :: SignsOnly(H, cfg.scheme, trusted[id], bodies))
    requires AttestOne(H, cfg.scheme, cp, BySeq(H, es), trusted).Verified? && cp.body.seqFrom <= n <= cp.body.seqTo
    ensures
      var stored := C.Of(rows, ChainOf(cp.body));
      || (1 <= n <= |stored| && (exists e :: LastAt(es, n, e)) && forall e | LastAt(es, n, e) :: SameRecord(stored[n - 1], e))
      || CollisionIn(H, PackInputs(H, bodies, cp.body, es) + AttestInputs(H, stored, cp.body))
  {
    hide K.GoodRows, C.Seals, C.Of, BySeq, AttestOne, SignsOnly, CollisionIn, PayloadInputs, LastAt, AttestInputs, SameRecord, HeadPos;
    var stored := C.Of(rows, ChainOf(cp.body));
    var hashed := PackInputs(H, bodies, cp.body, es) + AttestInputs(H, stored, cp.body);
    AttestedWasSigned(H, cfg.scheme, cp, BySeq(H, es), trusted, bodies);
    CollisionInLarger(H, PayloadInputs(cp.body) + AllPayloadInputs(bodies), hashed);
    if cp.body in bodies {
      var sealed: Checkpoint :| sealed.body == cp.body && C.Seals(H, cfg, ChainOf(cp.body), stored, sealed);
      SealedRangeIs(H, cfg, ChainOf(cp.body), stored, sealed, cp, es, trusted, n);
      CollisionInLarger(H, AttestInputs(H, stored, cp.body) + AttestInputs(H, es, cp.body), hashed);
    }
  }

  lemma SealedRangeIs(
    H: HashFn, cfg: C.Config, chain: ChainId, rows: seq<AuditEvent>, sealed: Checkpoint, cp: Checkpoint, es: seq<AuditEvent>,
    trusted: Trusted, n: nat)
    requires K.GoodRows(H, chain, rows) && HeadPos(rows) < U64_MAX && C.Seals(H, cfg, chain, rows, sealed)
    requires sealed.body == cp.body && cp.body.seqFrom <= n <= cp.body.seqTo
    requires AttestOne(H, cfg.scheme, cp, BySeq(H, es), trusted).Verified?
    ensures 1 <= n <= |rows|
    ensures exists e :: LastAt(es, n, e)
    ensures (forall e | LastAt(es, n, e) :: SameRecord(rows[n - 1], e))
            || CollisionIn(H, AttestInputs(H, rows, cp.body) + AttestInputs(H, es, cp.body))
  {
    hide K.GoodRows, BySeq, AttestOne, CollisionIn, AttestInputs, LastAt, SameRecord, HeadPos, TreeRoot, VerifyCheckpoint, Complete;
    GoodInOrder(H, chain, rows, 1, 0);
    var own := map[cfg.keyId := cfg.scheme.publicKey(cfg.secret)];
    SealsIsAttested(H, cfg, chain, rows, own, sealed);
    ShortVersions(H, chain, rows);
    AttestationBindsContents(H, cfg.scheme, sealed, cp, rows, es, own, trusted, n);
    RowIsLast(H, chain, rows, n);
  }

  lemma ShortVersions(H: HashFn, chain: ChainId, rows: seq<AuditEvent>)
    requires K.GoodRows(H, chain, rows)
    ensures forall e | e in rows :: |e.canonVersion| < U32_MAX
  {
    hide Linked, EventHash;
  }
}
