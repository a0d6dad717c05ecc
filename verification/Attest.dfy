/** Checking a pack's checkpoints against the events it holds. */
module Attest {
  import opened Wrappers
  import opened Hashing
  import opened Merkle
  import opened Canon
  import opened Events
  import opened Chain
  import opened Checkpoints

  datatype Pack = Pack(events: seq<AuditEvent>, checkpoints: seq<Checkpoint>)

  datatype Attestation = Verified(keyId: Str) | NotCoveredByPack | UntrustedKey | BadSeal(reason: ChainError) | WrongRoot

  datatype CheckpointVerdict = CheckpointVerdict(seqFrom: nat, seqTo: nat, rootHash: Hash32, attestation: Attestation)

  type Trusted = map<Str, Bytes>

  /** The recomputed hash at each position; the last event at a position wins. */
  function BySeq(H: HashFn, es: seq<AuditEvent>): map<nat, Hash32> {
    if es == [] then map[]
    else
      var n := |es| - 1;
      var before := BySeq(H, es[..n]);
      match EventHash(H, es[n])
      case Ok(h) => before[es[n].seqNo := h]
      case Err(_) => before
  }

  /** The leaves at `from..=to`, if each one is there. */
  function Collect(bySeq: map<nat, Hash32>, from: nat, to: nat): (r: Option<seq<Hash32>>)
    ensures r.Some? <==> forall n :: from <= n <= to ==> n in bySeq
    ensures r.Some? ==> |r.value| == if from <= to then to - from + 1 else 0
    ensures r.Some? ==> forall i :: 0 <= i < |r.value| ==> from + i in bySeq && r.value[i] == bySeq[from + i]
    decreases if from <= to then to - from + 1 else 0
  {
    if from > to then Some([])
    else if from !in bySeq then None
    else
      match Collect(bySeq, from + 1, to)
      case None => None
      case Some(rest) => Some([bySeq[from]] + rest)
  }

  function AttestOne(H: HashFn, scheme: Scheme, cp: Checkpoint, bySeq: map<nat, Hash32>, trusted: Trusted): Attestation {
    var key := if cp.keyId in trusted then Some(trusted[cp.keyId]) else if [] in trusted then Some(trusted[[]]) else None;
    match key
    case None => UntrustedKey
    case Some(k) =>
      match VerifyCheckpoint(H, scheme, cp, k)
      case Err(x) => BadSeal(x)
      case Ok(_) =>
        var leaves := Collect(bySeq, cp.body.seqFrom, cp.body.seqTo).GetOr([]);
        if |leaves| != cp.body.TreeSize() then NotCoveredByPack
        else if TreeRoot(H, leaves) != cp.body.rootHash then WrongRoot
        else Verified(cp.keyId)
  }

  function AttestPack(H: HashFn, scheme: Scheme, pack: Pack, trusted: Trusted): (r: seq<CheckpointVerdict>)
    ensures |r| == |pack.checkpoints|
  {
    var bySeq := BySeq(H, pack.events);
    seq(|pack.checkpoints|, i requires 0 <= i < |pack.checkpoints| =>
      var cp := pack.checkpoints[i];
      CheckpointVerdict(cp.body.seqFrom, cp.body.seqTo, cp.body.rootHash, AttestOne(H, scheme, cp, bySeq, trusted)))
  }

  // ----- What a verified checkpoint pins down -----

  /** The event at a position that counts: the last one there. */
  ghost predicate LastAt(es: seq<AuditEvent>, seqNo: nat, e: AuditEvent) {
    exists i :: 0 <= i < |es| && es[i] == e && e.seqNo == seqNo && forall j :: i < j < |es| ==> es[j].seqNo != seqNo
  }

  lemma {:induction false} BySeqIsLast(H: HashFn, es: seq<AuditEvent>, seqNo: nat)
    ensures seqNo in BySeq(H, es) <==> exists e :: LastAt(es, seqNo, e)
    ensures forall e | LastAt(es, seqNo, e) ::
              e in es && EventHash(H, e).Ok? && seqNo in BySeq(H, es) && BySeq(H, es)[seqNo] == EventHash(H, e).value
  {
    hide EventHash;
    if es != [] {
      var n := |es| - 1;
      var t, last := es[..n], es[n];
      SealTotal(H, last);
      BySeqIsLast(H, t, seqNo);
      if last.seqNo == seqNo {
        assert LastAt(es, seqNo, last);
      } else {
        forall e
          ensures LastAt(es, seqNo, e) <==> LastAt(t, seqNo, e)
        {
          LastAtPrefix(es, seqNo, e);
        }
      }
    }
  }

  lemma LastAtPrefix(es: seq<AuditEvent>, seqNo: nat, e: AuditEvent)
    requires es != [] && es[|es| - 1].seqNo != seqNo
    ensures LastAt(es, seqNo, e) <==> LastAt(es[..|es| - 1], seqNo, e)
  {
    var t := es[..|es| - 1];
    if LastAt(es, seqNo, e) {
      var i :| 0 <= i < |es| && es[i] == e && e.seqNo == seqNo && forall j :: i < j < |es| ==> es[j].seqNo != seqNo;
      assert t[i] == e && forall j :: i < j < |t| ==> t[j].seqNo != seqNo;
    }
    if LastAt(t, seqNo, e) {
      var i :| 0 <= i < |t| && t[i] == e && e.seqNo == seqNo && forall j :: i < j < |t| ==> t[j].seqNo != seqNo;
      assert es[i] == e && forall j :: i < j < |es| ==> es[j].seqNo != seqNo;
    }
  }

  /** The leaves a pack offers for a checkpoint. */
  function LeavesFor(H: HashFn, es: seq<AuditEvent>, body: CheckpointBody): seq<Hash32> {
    Collect(BySeq(H, es), body.seqFrom, body.seqTo).GetOr([])
  }

  /** A verified checkpoint's leaves are the recomputed hashes of a proper range
      with an event at every position, exactly unless it names every position
      there is: the leaf count of that range wraps to none. */
  lemma VerifiedCovers(H: HashFn, scheme: Scheme, cp: Checkpoint, es: seq<AuditEvent>, trusted: Trusted)
    requires AttestOne(H, scheme, cp, BySeq(H, es), trusted).Verified?
    ensures TreeRoot(H, LeavesFor(H, es, cp.body)) == cp.body.rootHash
    ensures Covers(BySeq(H, es), cp.body) <==> !cp.body.Everything()
    ensures !cp.body.Everything() ==>
              && |LeavesFor(H, es, cp.body)| == cp.body.seqTo - cp.body.seqFrom + 1
              && forall n :: cp.body.seqFrom <= n <= cp.body.seqTo ==> LeavesFor(H, es, cp.body)[n - cp.body.seqFrom] == BySeq(H, es)[n]
    ensures cp.body.Everything() ==> LeavesFor(H, es, cp.body) == []
  {
    hide VerifyCheckpoint, BySeq, TreeRoot, Collect;
    CollectedAll(BySeq(H, es), cp.body.seqFrom, cp.body.seqTo);
  }

  /** A proper range, each position of it with an event. */
  ghost predicate Covers(bySeq: map<nat, Hash32>, body: CheckpointBody) {
    body.seqFrom <= body.seqTo && forall n :: body.seqFrom <= n <= body.seqTo ==> n in bySeq
  }

  lemma CollectedAll(bySeq: map<nat, Hash32>, from: nat, to: nat)
    ensures
      var leaves := Collect(bySeq, from, to).GetOr([]);
      && (leaves != [] ==>
            && |leaves| == to - from + 1
            && forall n :: from <= n <= to ==> n in bySeq && leaves[n - from] == bySeq[n])
      && (from <= to && (forall n :: from <= n <= to ==> n in bySeq) ==> leaves != [])
  {
    var c := Collect(bySeq, from, to);
    if c.Some? {
      forall n | from <= n <= to
        ensures n in bySeq && c.value[n - from] == bySeq[n]
      {
        assert c.value[n - from] == bySeq[from + (n - from)];
      }
    }
  }

  /** The failing case: a checkpoint over every position there is, signed with the
      root of no leaves, is verified by a pack that holds nothing. */
  lemma EverythingVerifiesOnNothing(H: HashFn, scheme: Scheme, cp: Checkpoint, trusted: Trusted)
    requires cp.body.Everything() && cp.body.rootHash == TreeRoot(H, [])
    requires cp.keyId in trusted && VerifyCheckpoint(H, scheme, cp, trusted[cp.keyId]) == Ok(())
    ensures AttestOne(H, scheme, cp, BySeq(H, []), trusted) == Verified(cp.keyId)
    ensures !Covers(BySeq(H, []), cp.body)
  {
    hide VerifyCheckpoint, TreeRoot;
    assert 0 !in BySeq(H, []);
  }

  /** Every string hashed in recomputing what a checkpoint attests. */
  ghost function AttestInputs(H: HashFn, es: seq<AuditEvent>, body: CheckpointBody): set<Bytes> {
    TreeInputs(H, LeavesFor(H, es, body)) + AllEventInputs(es)
  }

  /** Attestation binds contents.  If two packs both verify for one checkpoint
      body, of any range but that of every position there is, then at each
      position of it both hold an event, and the two agree in every hashed field,
      or the hashing done for the two packs ran into a collision. */
  lemma AttestationBindsContents(
    H: HashFn, scheme: Scheme, cp: Checkpoint, cp': Checkpoint, es: seq<AuditEvent>, es': seq<AuditEvent>,
    trusted: Trusted, trusted': Trusted, seqNo: nat)
    requires cp.body == cp'.body && cp.body.seqFrom <= seqNo <= cp.body.seqTo && !cp.body.Everything()
    requires AttestOne(H, scheme, cp, BySeq(H, es), trusted).Verified?
    requires AttestOne(H, scheme, cp', BySeq(H, es'), trusted').Verified?
    requires forall e | e in es :: |e.canonVersion| < U32_MAX
    ensures (exists e :: LastAt(es, seqNo, e)) && (exists e :: LastAt(es', seqNo, e))
    ensures
      || (forall e, e' | LastAt(es, seqNo, e) && LastAt(es', seqNo, e') :: SameRecord(e, e'))
      || CollisionIn(H, AttestInputs(H, es, cp.body) + AttestInputs(H, es', cp.body))
  {
    hide AttestOne, EventHash, SameRecord, TreeRoot, TreeInputs, BySeq, LastAt, CollisionIn, LeavesFor, EventInputs;
    VerifiedCovers(H, scheme, cp, es, trusted);
    VerifiedCovers(H, scheme, cp', es', trusted');
    BySeqIsLast(H, es, seqNo);
    BySeqIsLast(H, es', seqNo);
    var hashed := AttestInputs(H, es, cp.body) + AttestInputs(H, es', cp.body);
    if !CollisionIn(H, hashed) {
      var l, l' := LeavesFor(H, es, cp.body), LeavesFor(H, es', cp.body);
      TreeRootBinds(H, l, l');
      CollisionInLarger(H, TreeInputs(H, l) + TreeInputs(H, l'), hashed);
      forall e, e' | LastAt(es, seqNo, e) && LastAt(es', seqNo, e')
        ensures SameRecord(e, e')
      {
        EventHashBinds(H, e, e');
        CollisionInLarger(H, EventInputs(e) + EventInputs(e'), hashed);
      }
    }
  }

  // ----- Who signed it -----

  /** The key a checkpoint is checked against: the one under its id, or else the one
      trusted without an id. */
  function KeyOf(cp: Checkpoint, trusted: Trusted): Option<Bytes> {
    if cp.keyId in trusted then Some(trusted[cp.keyId]) else if [] in trusted then Some(trusted[[]]) else None
  }

  /** What each verdict says, in terms of the signature, the events and the root. */
  lemma VerdictIff(H: HashFn, scheme: Scheme, cp: Checkpoint, bySeq: map<nat, Hash32>, trusted: Trusted)
    ensures
      var verdict, key := AttestOne(H, scheme, cp, bySeq, trusted), KeyOf(cp, trusted);
      var signed := key.Some? && SignedUnder(H, scheme, cp, key.value);
      var leaves := Collect(bySeq, cp.body.seqFrom, cp.body.seqTo).GetOr([]);
      && (verdict == UntrustedKey <==> cp.keyId !in trusted && [] !in trusted)
      && (verdict == BadSeal(BadKey) <==> key.Some? && !scheme.wellFormedKey(key.value))
      && (verdict == BadSeal(BadSignature) <==> key.Some? && scheme.wellFormedKey(key.value) && !signed)
      && (verdict == NotCoveredByPack <==> signed && |leaves| != cp.body.TreeSize())
      && (verdict == WrongRoot <==> signed && |leaves| == cp.body.TreeSize() && TreeRoot(H, leaves) != cp.body.rootHash)
      && (verdict == Verified(cp.keyId) <==> signed && |leaves| == cp.body.TreeSize() && TreeRoot(H, leaves) == cp.body.rootHash)
      && (verdict.Verified? ==> verdict == Verified(cp.keyId))
      && (cp.keyId in trusted ==> key == Some(trusted[cp.keyId]))
      && (cp.keyId !in trusted && [] in trusted ==> key == Some(trusted[[]]))
  {
    hide VerifyCheckpoint, SignedUnder, TreeRoot, Collect;
    var key := KeyOf(cp, trusted);
    if key.Some? {
      CheckpointVerifiesIff(H, scheme, cp, key.value);
      AcceptedOrWhy(H, scheme, cp, key.value);
    }
  }

  /** A verified checkpoint is one that was signed: under a key that accepts only
      payloads of some bodies, its body is one of them, or payloads collide. */
  lemma AttestedWasSigned(
    H: HashFn, scheme: Scheme, cp: Checkpoint, bySeq: map<nat, Hash32>, trusted: Trusted, bodies: set<CheckpointBody>)
    requires AttestOne(H, scheme, cp, bySeq, trusted).Verified?
    requires forall id | id in trusted :: SignsOnly(H, scheme, trusted[id], bodies)
    ensures cp.body in bodies || CollisionIn(H, PayloadInputs(cp.body) + AllPayloadInputs(bodies))
  {
    hide VerifyCheckpoint, TreeRoot, SignsOnly, SignedUnder, CollisionIn, PayloadInputs, AttestOne;
    VerdictIff(H, scheme, cp, bySeq, trusted);
    var key := KeyOf(cp, trusted).value;
    assert exists id :: id in trusted && trusted[id] == key;
    CheckpointVerifiesIff(H, scheme, cp, key);
    VerifiedWasSigned(H, scheme, cp, key, bodies);
  }

  // ----- Attested runs -----

  type Range = (nat, nat)

  predicate LexLessEq(a: Range, b: Range) {
    a.0 < b.0 || (a.0 == b.0 && a.1 <= b.1)
  }

  function InsertRange(r: Range, sorted: seq<Range>): seq<Range> {
    if sorted == [] || LexLessEq(r, sorted[0]) then [r] + sorted else [sorted[0]] + InsertRange(r, sorted[1..])
  }

  function SortRanges(rs: seq<Range>): seq<Range> {
    if rs == [] then [] else InsertRange(rs[0], SortRanges(rs[1..]))
  }

  ghost predicate SortedRanges(rs: seq<Range>) {
    forall i, j :: 0 <= i < j < |rs| ==> LexLessEq(rs[i], rs[j])
  }

  lemma {:induction false} InsertRangeSorts(r: Range, sorted: seq<Range>)
    requires SortedRanges(sorted)
    ensures SortedRanges(InsertRange(r, sorted))
    ensures forall x :: x in InsertRange(r, sorted) <==> x == r || x in sorted
  {
    if sorted != [] && !LexLessEq(r, sorted[0]) {
      InsertRangeSorts(r, sorted[1..]);
      assert sorted == [sorted[0]] + sorted[1..];
      assert forall x | x in InsertRange(r, sorted[1..]) :: LexLessEq(sorted[0], x);
    }
  }

  lemma {:induction false} SortRangesSorts(rs: seq<Range>)
    ensures SortedRanges(SortRanges(rs))
    ensures forall x :: x in SortRanges(rs) <==> x in rs
  {
    if rs != [] {
      SortRangesSorts(rs[1..]);
      InsertRangeSorts(rs[0], SortRanges(rs[1..]));
      assert rs == [rs[0]] + rs[1..];
    }
  }

  ghost predicate Covered(rs: seq<Range>, n: nat) {
    exists r :: r in rs && r.0 <= n <= r.1
  }

  /** Runs in order, each pair at least one position apart. */
  ghost predicate Separated(runs: seq<Range>) {
    forall i, j :: 0 <= i < j < |runs| ==> runs[i].1 + 1 < runs[j].0
  }

  function VerifiedRanges(verdicts: seq<CheckpointVerdict>): seq<Range> {
    if verdicts == [] then []
    else
      (if verdicts[0].attestation.Verified? then [(verdicts[0].seqFrom, verdicts[0].seqTo)] else [])
      + VerifiedRanges(verdicts[1..])
  }

  lemma {:induction false} VerifiedRangesAre(verdicts: seq<CheckpointVerdict>, r: Range)
    ensures r in VerifiedRanges(verdicts) <==>
            exists v :: v in verdicts && v.attestation.Verified? && r == (v.seqFrom, v.seqTo)
  {
    if verdicts != [] {
      VerifiedRangesAre(verdicts[1..], r);
      assert verdicts == [verdicts[0]] + verdicts[1..];
    }
  }

  ghost predicate SameCover(a: seq<Range>, b: seq<Range>) {
    forall n: nat :: Covered(a, n) <==> Covered(b, n)
  }

  ghost predicate Proper(rs: seq<Range>) {
    forall r | r in rs :: r.0 <= r.1
  }

  /** Take one more range into the runs: extend the last run, or start another. */
  function MergeOne(runs: seq<Range>, r: Range): seq<Range> {
    if runs != [] && r.0 <= runs[|runs| - 1].1 + 1 then
      var last := runs[|runs| - 1];
      runs[..|runs| - 1] + [(last.0, if last.1 > r.1 then last.1 else r.1)]
    else runs + [r]
  }

  /** Sort the verified ranges, then merge the ones that abut or overlap. */
  method AttestedRuns(verdicts: seq<CheckpointVerdict>) returns (runs: seq<Range>)
    ensures Separated(runs)
    ensures forall n: nat :: Covered(runs, n) <==>
              exists v :: v in verdicts && v.attestation.Verified? && v.seqFrom <= n <= v.seqTo
    ensures (forall v | v in verdicts && v.attestation.Verified? :: v.seqFrom <= v.seqTo) ==> Proper(runs)
  {
    hide SortRanges, VerifiedRanges, Covered, Separated, SameCover, Proper, MergeOne;
    var ranges := SortRanges(VerifiedRanges(verdicts));
    SortedVerified(verdicts, ranges);
    runs := [];
    MergeNothing(ranges);
    for k := 0 to |ranges|
      invariant Separated(runs) && SameCover(runs, ranges[..k])
      invariant runs != [] ==> k > 0 && runs[|runs| - 1].0 <= ranges[k - 1].0
      invariant Proper(ranges[..k]) ==> Proper(runs)
    {
      var from, to := ranges[k].0, ranges[k].1;
      assert ranges[..k + 1] == ranges[..k] + [ranges[k]];
      MergeStep(runs, ranges[..k], ranges[k]);
      if runs != [] && from <= runs[|runs| - 1].1 + 1 {
        var last := runs[|runs| - 1];
        runs := runs[..|runs| - 1] + [(last.0, if last.1 > to then last.1 else to)];
      } else {
        runs := runs + [(from, to)];
      }
    }
    assert ranges[..|ranges|] == ranges;
    SameCoverAt(runs, ranges);
  }

  lemma SameCoverAt(a: seq<Range>, b: seq<Range>)
    ensures SameCover(a, b) ==> forall n: nat :: Covered(a, n) <==> Covered(b, n)
  {
  }

  lemma MergeNothing(ranges: seq<Range>)
    ensures Separated([]) && SameCover([], ranges[..0]) && Proper([])
  {
    assert ranges[..0] == [];
  }

  lemma MergeStep(runs: seq<Range>, seen: seq<Range>, r: Range)
    requires Separated(runs) && SameCover(runs, seen)
    requires Proper(seen) ==> Proper(runs)
    requires runs != [] ==> runs[|runs| - 1].0 <= r.0
    ensures
      var after := if runs != [] && r.0 <= runs[|runs| - 1].1 + 1 then
                     runs[..|runs| - 1] + [(runs[|runs| - 1].0, if runs[|runs| - 1].1 > r.1 then runs[|runs| - 1].1 else r.1)]
                   else runs + [(r.0, r.1)];
      && Separated(after) && SameCover(after, seen + [r])
      && after[|after| - 1].0 <= r.0
      && (Proper(seen + [r]) ==> Proper(after))
  {
    var after := MergeOne(runs, r);
    CoversOneMore(seen, r);
    CoversOneMore(runs, r);
    if runs != [] && r.0 <= runs[|runs| - 1].1 + 1 {
      MergeCovers(runs, after, r);
    }
    ProperOneMore(runs, seen, r);
  }

  lemma ProperOneMore(runs: seq<Range>, seen: seq<Range>, r: Range)
    requires Proper(seen) ==> Proper(runs)
    ensures Proper(seen + [r]) ==> Proper(MergeOne(runs, r))
  {
    if Proper(seen + [r]) {
      assert forall x | x in seen :: x in seen + [r];
      assert r in seen + [r];
      if runs != [] {
        assert runs[|runs| - 1] in runs;
      }
    }
  }

  lemma SortedVerified(verdicts: seq<CheckpointVerdict>, ranges: seq<Range>)
    requires ranges == SortRanges(VerifiedRanges(verdicts))
    ensures forall i, j :: 0 <= i < j < |ranges| ==> ranges[i].0 <= ranges[j].0
    ensures forall n: nat :: Covered(ranges, n) <==>
              exists v :: v in verdicts && v.attestation.Verified? && v.seqFrom <= n <= v.seqTo
    ensures (forall v | v in verdicts && v.attestation.Verified? :: v.seqFrom <= v.seqTo) ==> Proper(ranges)
  {
    SortRangesSorts(VerifiedRanges(verdicts));
    forall n: nat
      ensures Covered(ranges, n) <==> exists v :: v in verdicts && v.attestation.Verified? && v.seqFrom <= n <= v.seqTo
    {
      VerifiedCover(verdicts, ranges, n);
    }
    forall r | r in ranges
      ensures (forall v | v in verdicts && v.attestation.Verified? :: v.seqFrom <= v.seqTo) ==> r.0 <= r.1
    {
      VerifiedRangesAre(verdicts, r);
    }
  }

  lemma CoversOneMore(rs: seq<Range>, r: Range)
    ensures forall n: nat :: Covered(rs + [r], n) <==> Covered(rs, n) || r.0 <= n <= r.1
  {
    assert r in rs + [r];
  }

  lemma MergeCovers(earlier: seq<Range>, runs: seq<Range>, r: Range)
    requires earlier != [] && earlier[|earlier| - 1].0 <= r.0 <= earlier[|earlier| - 1].1 + 1
    requires var last := earlier[|earlier| - 1];
             runs == earlier[..|earlier| - 1] + [(last.0, if last.1 > r.1 then last.1 else r.1)]
    ensures forall n: nat :: Covered(runs, n) <==> Covered(earlier + [r], n)
  {
    var front, last := earlier[..|earlier| - 1], earlier[|earlier| - 1];
    assert earlier == front + [last];
    CoversOneMore(earlier, r);
    CoversOneMore(front, last);
    CoversOneMore(front, runs[|runs| - 1]);
  }

  lemma VerifiedCover(verdicts: seq<CheckpointVerdict>, ranges: seq<Range>, n: nat)
    requires forall x :: x in ranges <==> x in VerifiedRanges(verdicts)
    ensures Covered(ranges, n) <==> exists v :: v in verdicts && v.attestation.Verified? && v.seqFrom <= n <= v.seqTo
  {
    if Covered(ranges, n) {
      var r :| r in ranges && r.0 <= n <= r.1;
      VerifiedRangesAre(verdicts, r);
    }
    if v :| v in verdicts && v.attestation.Verified? && v.seqFrom <= n <= v.seqTo {
      VerifiedRangesAre(verdicts, (v.seqFrom, v.seqTo));
    }
  }

  lemma GapUncovered(runs: seq<Range>)
    requires Separated(runs) && |runs| > 1
    ensures !Covered(runs, runs[0].1 + 1)
  {
  }

  /** Separated proper runs that cover exactly 1..=top are the one run 1..=top. */
  lemma OneRun(runs: seq<Range>, top: nat)
    requires Separated(runs) && Proper(runs)
    requires forall n: nat :: Covered(runs, n) <==> 1 <= n <= top
    ensures runs == if top == 0 then [] else [(1, top)]
  {
    if runs == [] {
      assert !Covered(runs, top);
    } else {
      var r := runs[0];
      assert r in runs && Covered(runs, r.0) && Covered(runs, r.1);
      if |runs| > 1 {
        assert runs[1] in runs && Covered(runs, runs[1].0);
        GapUncovered(runs);
      }
      assert Covered(runs, 1) && Covered(runs, top);
    }
  }
}
