/** What a report says about the events it was made from. */
module VerifyTheorems {
  import opened Wrappers
  import opened Hashing
  import opened Canon
  import opened Events
  import opened Chain
  import opened Verify

  function PrevSeq(es: seq<AuditEvent>, last: Option<u64>, i: nat): Option<u64>
    requires i <= |es|
  {
    if i == 0 then last else Some(es[i - 1].seqNo)
  }

  function PrevHash(es: seq<AuditEvent>, anchor: Hash32, i: nat): Hash32
    requires i <= |es|
  {
    if i == 0 then anchor else es[i - 1].eventHash
  }

  function FindingsAt(H: HashFn, es: seq<AuditEvent>, last: Option<u64>, anchor: Hash32, i: nat): seq<Violation>
    requires i < |es|
  {
    EventFindings(H, PrevSeq(es, last, i), PrevHash(es, anchor, i), es[i])
  }

  lemma {:induction false} FindingsMember(H: HashFn, es: seq<AuditEvent>, last: Option<u64>, anchor: Hash32, v: Violation)
    ensures v in Findings(H, es, last, anchor) <==>
            exists i :: 0 <= i < |es| && v in FindingsAt(H, es, last, anchor, i)
  {
    hide EventFindings;
    if es != [] {
      var t, l, h := es[1..], Some(es[0].seqNo), es[0].eventHash;
      FindingsMember(H, t, l, h, v);
      assert forall i :: 0 <= i < |t| ==> FindingsAt(H, t, l, h, i) == FindingsAt(H, es, last, anchor, i + 1);
      if i :| 0 <= i < |t| && v in FindingsAt(H, t, l, h, i) {
        assert v in FindingsAt(H, es, last, anchor, i + 1);
      }
      assert FindingsAt(H, es, last, anchor, 0) == EventFindings(H, last, anchor, es[0]);
      if i :| 0 < i < |es| && v in FindingsAt(H, es, last, anchor, i) {
        assert FindingsAt(H, es, last, anchor, i) == FindingsAt(H, t, l, h, i - 1);
      }
    }
  }

  // ----- What a clean report means -----

  /** Sealed under the known rule set, and rehashing to what it carries. */
  ghost predicate Rehashes(H: HashFn, e: AuditEvent) {
    e.canonVersion == CANON_VERSION && EventHash(H, e) == Ok(e.eventHash)
  }

  ghost predicate Linked(es: seq<AuditEvent>, anchor: Hash32) {
    forall i :: 0 <= i < |es| ==> es[i].prevHash == PrevHash(es, anchor, i)
  }

  /** A next position without a finding: one further, or a fall.  After the very
      last position "one further" wraps to 0, and any other is a finding. */
  predicate Follows(last: u64, next: u64) {
    if last == U64_MAX then next == 0 else next == last + 1 || next < last
  }

  /** Each next position is one further or falls back: a fall is not a finding. */
  ghost predicate StepsOrFalls(es: seq<AuditEvent>) {
    forall i :: 0 < i < |es| ==> Follows(es[i - 1].seqNo, es[i].seqNo)
  }

  lemma CleanIff(H: HashFn, es: seq<AuditEvent>, anchor: Hash32)
    ensures Report(H, es, anchor).IsClean() <==>
            Linked(es, anchor) && StepsOrFalls(es) && forall e | e in es :: Rehashes(H, e)
  {
    hide EventHash, Findings, FindingsAt, StepsOrFalls, Linked, Rehashes;
    NoFindingsIff(H, es, None, anchor);
    CleanAtEach(H, es, anchor);
  }

  lemma CleanAtEach(H: HashFn, es: seq<AuditEvent>, anchor: Hash32)
    ensures (forall i :: 0 <= i < |es| ==> FindingsAt(H, es, None, anchor, i) == []) <==>
            Linked(es, anchor) && StepsOrFalls(es) && forall e | e in es :: Rehashes(H, e)
  {
    hide FindingsAt, Rehashes, Linked, StepsOrFalls;
    if Linked(es, anchor) && StepsOrFalls(es) && forall e | e in es :: Rehashes(H, e) {
      SoundHasNone(H, es, anchor);
    }
    if forall i :: 0 <= i < |es| ==> FindingsAt(H, es, None, anchor, i) == [] {
      NoneMeansSound(H, es, anchor);
    }
  }

  lemma SoundHasNone(H: HashFn, es: seq<AuditEvent>, anchor: Hash32)
    requires Linked(es, anchor) && StepsOrFalls(es) && forall e | e in es :: Rehashes(H, e)
    ensures forall i :: 0 <= i < |es| ==> FindingsAt(H, es, None, anchor, i) == []
  {
    hide FindingsAt, Rehashes, PrevHash;
    forall i | 0 <= i < |es|
      ensures FindingsAt(H, es, None, anchor, i) == []
    {
      assert es[i] in es;
      CleanAt(H, es, anchor, i);
    }
  }

  lemma NoneMeansSound(H: HashFn, es: seq<AuditEvent>, anchor: Hash32)
    requires forall i :: 0 <= i < |es| ==> FindingsAt(H, es, None, anchor, i) == []
    ensures Linked(es, anchor) && StepsOrFalls(es) && forall e | e in es :: Rehashes(H, e)
  {
    hide FindingsAt, Rehashes, PrevHash;
    forall i | 0 <= i < |es|
      ensures es[i].prevHash == PrevHash(es, anchor, i) && Rehashes(H, es[i])
      ensures i > 0 ==> Follows(es[i - 1].seqNo, es[i].seqNo)
    {
      CleanAt(H, es, anchor, i);
    }
  }

  lemma CleanAt(H: HashFn, es: seq<AuditEvent>, anchor: Hash32, i: nat)
    requires i < |es|
    ensures FindingsAt(H, es, None, anchor, i) == [] <==>
            && es[i].prevHash == PrevHash(es, anchor, i)
            && (i > 0 ==> Follows(es[i - 1].seqNo, es[i].seqNo))
            && Rehashes(H, es[i])
  {
    hide EventHash;
    NoEventFindings(H, PrevSeq(es, None, i), PrevHash(es, anchor, i), es[i]);
  }

  lemma NoEventFindings(H: HashFn, last: Option<u64>, expected: Hash32, e: AuditEvent)
    ensures EventFindings(H, last, expected, e) == [] <==>
            && PositionFindings(last, e) == [] && LinkFindings(expected, e) == [] && ContentFindings(H, e) == []
  {
    hide EventHash;
  }

  lemma {:induction false} NoFindingsIff(H: HashFn, es: seq<AuditEvent>, last: Option<u64>, anchor: Hash32)
    ensures Findings(H, es, last, anchor) == [] <==>
            forall i :: 0 <= i < |es| ==> FindingsAt(H, es, last, anchor, i) == []
  {
    hide EventFindings;
    if es != [] {
      var t, l, h := es[1..], Some(es[0].seqNo), es[0].eventHash;
      NoFindingsIff(H, t, l, h);
      assert FindingsAt(H, es, last, anchor, 0) == EventFindings(H, last, anchor, es[0]);
      assert forall i :: 0 <= i < |t| ==> FindingsAt(H, t, l, h, i) == FindingsAt(H, es, last, anchor, i + 1);
      assert forall i :: 0 < i < |es| ==> FindingsAt(H, es, last, anchor, i) == FindingsAt(H, t, l, h, i - 1);
    }
  }

  ghost predicate Contiguous(es: seq<AuditEvent>) {
    forall i :: 0 < i < |es| ==> es[i].seqNo == es[i - 1].seqNo + 1
  }

  ghost predicate NeverFalls(es: seq<AuditEvent>) {
    forall i :: 0 < i < |es| ==> es[i - 1].seqNo <= es[i].seqNo
  }

  /** A clean range is contiguous exactly if its positions never fall. */
  lemma CleanContiguousIff(H: HashFn, es: seq<AuditEvent>, anchor: Hash32)
    requires Report(H, es, anchor).IsClean()
    ensures Contiguous(es) <==> NeverFalls(es)
  {
    CleanIff(H, es, anchor);
  }

  /** Two events sealed in falling order verify cleanly, unless the first stands
      at the very last position and the second not at 0: the walk does not report
      that a position was given twice over. */
  lemma CleanThoughFalling(H: HashFn, d: AuditEvent, e: AuditEvent, a: AuditEvent, b: AuditEvent)
    requires d.canonVersion == e.canonVersion == CANON_VERSION
    requires e.seqNo < d.seqNo
    requires Sealed(H, d.(prevHash := GENESIS)) == Ok(a)
    requires Sealed(H, e.(prevHash := a.eventHash)) == Ok(b)
    ensures Report(H, [a, b], GENESIS).IsClean() <==> d.seqNo < U64_MAX || e.seqNo == 0
    ensures !Contiguous([a, b])
  {
    SealedRehashes(H, d.(prevHash := GENESIS));
    SealedRehashes(H, e.(prevHash := a.eventHash));
    FallIsClean(H, a, b);
  }

  lemma FallIsClean(H: HashFn, a: AuditEvent, b: AuditEvent)
    requires Rehashes(H, a) && Rehashes(H, b)
    requires a.prevHash == GENESIS && b.prevHash == a.eventHash && b.seqNo < a.seqNo
    ensures Report(H, [a, b], GENESIS).IsClean() <==> a.seqNo < U64_MAX || b.seqNo == 0
    ensures !Contiguous([a, b])
  {
    hide EventHash, Findings, Rehashes;
    CleanIff(H, [a, b], GENESIS);
    assert [a, b][1].seqNo != [a, b][0].seqNo + 1;
    assert StepsOrFalls([a, b]) <==> Follows(a.seqNo, b.seqNo);
  }

  /** After the very last position the bound of the gap test wraps: an event that
      falls back anywhere but to 0 is reported as a gap that ends before it began. */
  lemma WrappedGap(H: HashFn, expected: Hash32, e: AuditEvent)
    requires 0 < e.seqNo < U64_MAX
    ensures PositionFindings(Some(U64_MAX), e) == [Gap(U64_MAX, e.seqNo)]
    ensures Gap(U64_MAX, e.seqNo) in EventFindings(H, Some(U64_MAX), expected, e)
  {
    hide ContentFindings, LinkFindings;
    assert Gap(U64_MAX, e.seqNo) in PositionFindings(Some(U64_MAX), e);
  }

  /** Inconclusive means: every link and position holds, every event of the
      known rule set rehashes, and some event is of another rule set. */
  lemma InconclusiveIff(H: HashFn, es: seq<AuditEvent>, anchor: Hash32)
    ensures Report(H, es, anchor).IsInconclusive() <==>
            && Linked(es, anchor) && StepsOrFalls(es)
            && (forall e | e in es :: e.canonVersion == CANON_VERSION ==> Rehashes(H, e))
            && exists e :: e in es && e.canonVersion != CANON_VERSION
  {
    hide EventHash, Findings, FindingsAt, Linked, StepsOrFalls;
    if forall v | v in Findings(H, es, None, anchor) :: v.IsVerifierLimit() {
      LimitsOnly(H, es, anchor);
    }
    if Linked(es, anchor) && StepsOrFalls(es) && forall e | e in es :: e.canonVersion == CANON_VERSION ==> Rehashes(H, e) {
      OnlyLimits(H, es, anchor);
    }
    if e :| e in es && e.canonVersion != CANON_VERSION {
      UnknownIsFound(H, es, anchor, e);
    } else {
      CleanIff(H, es, anchor);
    }
  }

  lemma UnknownIsFound(H: HashFn, es: seq<AuditEvent>, anchor: Hash32, e: AuditEvent)
    requires e in es && e.canonVersion != CANON_VERSION
    ensures Findings(H, es, None, anchor) != []
  {
    hide EventHash, Findings;
    var i :| 0 <= i < |es| && es[i] == e;
    FindingsMember(H, es, None, anchor, UnknownCanonVersion(e.seqNo, e.canonVersion));
    assert UnknownCanonVersion(e.seqNo, e.canonVersion) in FindingsAt(H, es, None, anchor, i);
  }

  lemma LimitsOnly(H: HashFn, es: seq<AuditEvent>, anchor: Hash32)
    requires forall v | v in Findings(H, es, None, anchor) :: v.IsVerifierLimit()
    ensures Linked(es, anchor) && StepsOrFalls(es)
    ensures forall e | e in es :: e.canonVersion == CANON_VERSION ==> Rehashes(H, e)
  {
    hide EventHash, Findings;
    forall i | 0 <= i < |es|
      ensures es[i].prevHash == PrevHash(es, anchor, i)
      ensures es[i].canonVersion == CANON_VERSION ==> Rehashes(H, es[i])
      ensures i > 0 ==> Follows(es[i - 1].seqNo, es[i].seqNo)
    {
      LimitsOnlyAt(H, es, anchor, i);
    }
  }

  lemma OnlyLimits(H: HashFn, es: seq<AuditEvent>, anchor: Hash32)
    requires Linked(es, anchor) && StepsOrFalls(es)
    requires forall e | e in es :: e.canonVersion == CANON_VERSION ==> Rehashes(H, e)
    ensures forall v | v in Findings(H, es, None, anchor) :: v.IsVerifierLimit()
  {
    hide Findings, FindingsAt, Rehashes;
    forall v | v in Findings(H, es, None, anchor)
      ensures v.IsVerifierLimit()
    {
      FindingsMember(H, es, None, anchor, v);
      var i :| 0 <= i < |es| && v in FindingsAt(H, es, None, anchor, i);
      assert es[i] in es;
      assert v in EventFindings(H, PrevSeq(es, None, i), PrevHash(es, anchor, i), es[i]) by { AtIs(H, es, None, anchor, i); }
      OnlyLimitsAt(H, PrevSeq(es, None, i), PrevHash(es, anchor, i), es[i], v);
    }
  }

  lemma AtIs(H: HashFn, es: seq<AuditEvent>, last: Option<u64>, anchor: Hash32, i: nat)
    requires i < |es|
    ensures FindingsAt(H, es, last, anchor, i) == EventFindings(H, PrevSeq(es, last, i), PrevHash(es, anchor, i), es[i])
  {
  }

  lemma OnlyLimitsAt(H: HashFn, last: Option<u64>, expected: Hash32, e: AuditEvent, v: Violation)
    requires v in EventFindings(H, last, expected, e)
    requires e.prevHash == expected && (last.Some? ==> Follows(last.value, e.seqNo))
    requires e.canonVersion == CANON_VERSION ==> Rehashes(H, e)
    ensures v.IsVerifierLimit()
  {
    hide EventHash;
  }

  lemma LimitsOnlyAt(H: HashFn, es: seq<AuditEvent>, anchor: Hash32, i: nat)
    requires i < |es| && forall v | v in Findings(H, es, None, anchor) :: v.IsVerifierLimit()
    ensures es[i].prevHash == PrevHash(es, anchor, i)
    ensures es[i].canonVersion == CANON_VERSION ==> Rehashes(H, es[i])
    ensures i > 0 ==> Follows(es[i - 1].seqNo, es[i].seqNo)
  {
    hide EventHash, Findings, PositionFindings, LinkFindings, ContentFindings;
    var last, expected, e := PrevSeq(es, None, i), PrevHash(es, anchor, i), es[i];
    var p, l, c := PositionFindings(last, e), LinkFindings(expected, e), ContentFindings(H, e);
    forall v | v in p || v in l || v in c
      ensures v.IsVerifierLimit()
    {
      assert v in FindingsAt(H, es, None, anchor, i);
      FindingsMember(H, es, None, anchor, v);
    }
    assert p != [] ==> p[0] in p;
    assert l != [] ==> l[0] in l;
    assert c != [] ==> c[0] in c;
    NotLimits(H, last, expected, e);
  }

  lemma NotLimits(H: HashFn, last: Option<u64>, expected: Hash32, e: AuditEvent)
    requires PositionFindings(last, e) != [] ==> PositionFindings(last, e)[0].IsVerifierLimit()
    requires LinkFindings(expected, e) != [] ==> LinkFindings(expected, e)[0].IsVerifierLimit()
    requires ContentFindings(H, e) != [] ==> ContentFindings(H, e)[0].IsVerifierLimit()
    ensures last.Some? ==> Follows(last.value, e.seqNo)
    ensures e.prevHash == expected
    ensures e.canonVersion == CANON_VERSION ==> Rehashes(H, e)
  {
    hide EventHash;
  }

  // ----- Verifying in chunks -----

  lemma {:induction false} FindingsAppend(H: HashFn, a: seq<AuditEvent>, b: seq<AuditEvent>, last: Option<u64>, anchor: Hash32)
    ensures Findings(H, a + b, last, anchor) ==
            Findings(H, a, last, anchor) + Findings(H, b, LastSeq(a, last), HeadOf(a, anchor))
  {
    hide EventFindings;
    if a == [] {
      assert a + b == b;
    } else {
      assert (a + b)[1..] == a[1..] + b;
      FindingsAppend(H, a[1..], b, Some(a[0].seqNo), a[0].eventHash);
    }
  }

  /** Verifying `a` and then `b` from a's head finds what one walk over `a + b`
      finds, but for at most one finding: a gap or fork where they meet. */
  lemma ChunkedVerification(H: HashFn, a: seq<AuditEvent>, b: seq<AuditEvent>, anchor: Hash32)
    ensures var whole, first, second := Report(H, a + b, anchor), Report(H, a, anchor), Report(H, b, Report(H, a, anchor).headHash);
            var seam := if b == [] then [] else PositionFindings(LastSeq(a, None), b[0]);
            && whole.violations == first.violations + seam + second.violations
            && |seam| <= 1 && (forall v | v in seam :: v.Gap? || v.Fork?)
            && whole.headHash == second.headHash
            && whole.eventsChecked == first.eventsChecked + second.eventsChecked
  {
    hide EventHash, Findings, EventFindings, PositionFindings;
    FindingsAppend(H, a, b, None, anchor);
    Seam(H, b, LastSeq(a, None), HeadOf(a, anchor));
    if b != [] {
      assert (a + b)[|a + b| - 1] == b[|b| - 1];
    } else {
      assert a + b == a;
    }
  }

  lemma Seam(H: HashFn, b: seq<AuditEvent>, last: Option<u64>, anchor: Hash32)
    ensures b == [] ==> Findings(H, b, last, anchor) == Findings(H, b, None, anchor) == []
    ensures b != [] ==>
              var seam := PositionFindings(last, b[0]);
              && Findings(H, b, last, anchor) == seam + Findings(H, b, None, anchor)
              && |seam| <= 1 && forall v | v in seam :: v.Gap? || v.Fork?
  {
    hide ContentFindings, LinkFindings, Findings, EventFindings;
    NothingFound(H, last, anchor);
    NothingFound(H, None, anchor);
    if b != [] {
      FirstFindings(H, b, last, anchor);
      FirstFindings(H, b, None, anchor);
      PositionComesFirst(H, last, anchor, b[0]);
    }
  }

  lemma NothingFound(H: HashFn, last: Option<u64>, anchor: Hash32)
    ensures Findings(H, [], last, anchor) == []
  {
    hide EventFindings;
  }

  lemma PositionComesFirst(H: HashFn, last: Option<u64>, expected: Hash32, e: AuditEvent)
    ensures EventFindings(H, last, expected, e) == PositionFindings(last, e) + EventFindings(H, None, expected, e)
  {
    hide ContentFindings, LinkFindings;
  }

  lemma FirstFindings(H: HashFn, b: seq<AuditEvent>, last: Option<u64>, anchor: Hash32)
    requires b != []
    ensures Findings(H, b, last, anchor) ==
            EventFindings(H, last, anchor, b[0]) + Findings(H, b[1..], Some(b[0].seqNo), b[0].eventHash)
  {
    hide EventFindings;
  }

  // ----- The head hash commits to the whole history -----

  ghost predicate SameHistory(a: seq<AuditEvent>, b: seq<AuditEvent>) {
    |a| == |b| && forall i :: 0 <= i < |a| ==> SameRecord(a[i], b[i])
  }

  /** A longer list whose extra events end in an event that hashes to the anchor. */
  ghost predicate MeetsAnchor(long: seq<AuditEvent>, short: seq<AuditEvent>, anchor: Hash32) {
    |short| < |long| && long[|long| - |short| - 1].eventHash == anchor
  }

  /** Two lists, clean from one anchor and ending in one head, agree in every
      hashed field at every position; or their hash inputs collide; or one of
      them holds an event that hashes to the anchor. */
  lemma HeadCommitsToHistory(H: HashFn, a: seq<AuditEvent>, b: seq<AuditEvent>, anchor: Hash32)
    requires Report(H, a, anchor).IsClean() && Report(H, b, anchor).IsClean()
    requires Report(H, a, anchor).headHash == Report(H, b, anchor).headHash
    ensures
      || SameHistory(a, b)
      || CollisionIn(H, AllEventInputs(a) + AllEventInputs(b))
      || MeetsAnchor(a, b, anchor) || MeetsAnchor(b, a, anchor)
  {
    hide EventHash, Findings, EventInputs;
    CleanIff(H, a, anchor);
    CleanIff(H, b, anchor);
    if !CollisionIn(H, AllEventInputs(a) + AllEventInputs(b)) {
      HistoryFromHead(H, a, b, anchor);
    }
  }

  lemma {:induction false} HistoryFromHead(H: HashFn, a: seq<AuditEvent>, b: seq<AuditEvent>, anchor: Hash32)
    requires Linked(a, anchor) && Linked(b, anchor)
    requires (forall e | e in a :: Rehashes(H, e)) && (forall e | e in b :: Rehashes(H, e))
    requires HeadOf(a, anchor) == HeadOf(b, anchor)
    requires !CollisionIn(H, AllEventInputs(a) + AllEventInputs(b))
    ensures SameHistory(a, b) || MeetsAnchor(a, b, anchor) || MeetsAnchor(b, a, anchor)
    decreases |a|
  {
    hide EventHash, EventInputs, SameRecord, Rehashes, AllEventInputs, Linked, SameHistory, MeetsAnchor, CollisionIn;
    if a == [] || b == [] {
      OneHistoryEmpty(a, b, anchor);
    } else {
      LastEventsAgree(H, a, b);
      ShorterInputs(H, a, b);
      LinkedPrefix(a, anchor);
      LinkedPrefix(b, anchor);
      RecordPosition(a[|a| - 1], b[|b| - 1]);
      HistoryFromHead(H, a[..|a| - 1], b[..|b| - 1], anchor);
      ExtendHistory(a, b, anchor);
    }
  }

  lemma OneHistoryEmpty(a: seq<AuditEvent>, b: seq<AuditEvent>, anchor: Hash32)
    requires (a == [] || b == []) && HeadOf(a, anchor) == HeadOf(b, anchor)
    ensures SameHistory(a, b) || MeetsAnchor(a, b, anchor) || MeetsAnchor(b, a, anchor)
  {
  }

  lemma ExtendHistory(a: seq<AuditEvent>, b: seq<AuditEvent>, anchor: Hash32)
    requires a != [] && b != [] && SameRecord(a[|a| - 1], b[|b| - 1])
    ensures SameHistory(a[..|a| - 1], b[..|b| - 1]) ==> SameHistory(a, b)
    ensures MeetsAnchor(a[..|a| - 1], b[..|b| - 1], anchor) ==> MeetsAnchor(a, b, anchor)
    ensures MeetsAnchor(b[..|b| - 1], a[..|a| - 1], anchor) ==> MeetsAnchor(b, a, anchor)
  {
    hide SameRecord;
    var s, t := a[..|a| - 1], b[..|b| - 1];
    if SameHistory(s, t) {
      forall i | 0 <= i < |a|
        ensures SameRecord(a[i], b[i])
      {
        if i < |s| {
          assert SameRecord(s[i], t[i]);
        }
      }
    }
  }

  lemma RecordPosition(d: AuditEvent, e: AuditEvent)
    requires SameRecord(d, e)
    ensures d.prevHash == e.prevHash && d.seqNo == e.seqNo
  {
    assert Bare(d).prevHash == d.prevHash && Bare(e).prevHash == e.prevHash;
    assert Bare(d).seqNo == d.seqNo && Bare(e).seqNo == e.seqNo;
  }

  lemma LinkedPrefix(es: seq<AuditEvent>, anchor: Hash32)
    requires es != [] && Linked(es, anchor)
    ensures Linked(es[..|es| - 1], anchor)
    ensures HeadOf(es[..|es| - 1], anchor) == es[|es| - 1].prevHash
  {
    var t := es[..|es| - 1];
    assert forall i :: 0 <= i < |t| ==> PrevHash(t, anchor, i) == PrevHash(es, anchor, i);
  }

  lemma ShorterInputs(H: HashFn, a: seq<AuditEvent>, b: seq<AuditEvent>)
    requires a != [] && b != [] && !CollisionIn(H, AllEventInputs(a) + AllEventInputs(b))
    ensures !CollisionIn(H, AllEventInputs(a[..|a| - 1]) + AllEventInputs(b[..|b| - 1]))
  {
    hide EventInputs;
    CollisionInLarger(H, AllEventInputs(a[..|a| - 1]) + AllEventInputs(b[..|b| - 1]), AllEventInputs(a) + AllEventInputs(b));
  }

  lemma LastEventsAgree(H: HashFn, a: seq<AuditEvent>, b: seq<AuditEvent>)
    requires a != [] && b != [] && a[|a| - 1].eventHash == b[|b| - 1].eventHash
    requires (forall e | e in a :: Rehashes(H, e)) && (forall e | e in b :: Rehashes(H, e))
    requires !CollisionIn(H, AllEventInputs(a) + AllEventInputs(b))
    ensures SameRecord(a[|a| - 1], b[|b| - 1])
  {
    hide EventHash, EventInputs, SameRecord;
    var d, e := a[|a| - 1], b[|b| - 1];
    assert d in a && e in b;
    SameHashSameRecord(H, d, e);
    CollisionInLarger(H, EventInputs(d) + EventInputs(e), AllEventInputs(a) + AllEventInputs(b));
  }

  lemma SameHashSameRecord(H: HashFn, d: AuditEvent, e: AuditEvent)
    requires Rehashes(H, d) && Rehashes(H, e) && d.eventHash == e.eventHash
    ensures SameRecord(d, e) || CollisionIn(H, EventInputs(d) + EventInputs(e))
  {
    hide EventHash, EventInputs, SameRecord;
    EventHashBinds(H, d, e);
  }

  // ----- One fault, one place -----

  lemma FindingsSplit(H: HashFn, a: seq<AuditEvent>, e: AuditEvent, b: seq<AuditEvent>, anchor: Hash32)
    ensures Findings(H, a + [e] + b, None, anchor) ==
            Findings(H, a, None, anchor)
            + EventFindings(H, LastSeq(a, None), HeadOf(a, anchor), e)
            + Findings(H, b, Some(e.seqNo), e.eventHash)
  {
    hide EventFindings, EventHash;
    FindingsAppend(H, a, [e] + b, None, anchor);
    assert a + [e] + b == a + ([e] + b);
    assert ([e] + b)[0] == e && ([e] + b)[1..] == b;
  }

  /** Editing the hashed fields of one event, while keeping its position, link,
      stored hash and rule set, gives one hash mismatch, there. */
  lemma EditIsLocal(H: HashFn, es: seq<AuditEvent>, anchor: Hash32, i: nat, e: AuditEvent)
    requires Report(H, es, anchor).IsClean() && i < |es|
    requires e.seqNo == es[i].seqNo && e.prevHash == es[i].prevHash
    requires e.eventHash == es[i].eventHash && e.canonVersion == es[i].canonVersion
    requires !SameRecord(e, es[i])
    ensures EventHash(H, e).Ok?
    ensures
      || Report(H, es[i := e], anchor).violations == [HashMismatch(e.seqNo, e.eventHash, EventHash(H, e).value)]
      || CollisionIn(H, EventInputs(es[i]) + EventInputs(e))
  {
    SealTotal(H, e);
    hide EventHash, EventInputs, SameRecord, Findings, EventFindings;
    var a, b, d := es[..i], es[i + 1..], es[i];
    assert es == a + [d] + b && es[i := e] == a + [e] + b;
    FindingsSplit(H, a, d, b, anchor);
    FindingsSplit(H, a, e, b, anchor);
    if !CollisionIn(H, EventInputs(d) + EventInputs(e)) {
      EditedEventFindings(H, LastSeq(a, None), HeadOf(a, anchor), d, e);
    }
  }

  lemma EditedEventFindings(H: HashFn, last: Option<u64>, expected: Hash32, d: AuditEvent, e: AuditEvent)
    requires EventFindings(H, last, expected, d) == []
    requires e.seqNo == d.seqNo && e.prevHash == d.prevHash
    requires e.eventHash == d.eventHash && e.canonVersion == d.canonVersion
    requires !SameRecord(e, d) && EventHash(H, e).Ok?
    requires !CollisionIn(H, EventInputs(d) + EventInputs(e))
    ensures EventFindings(H, last, expected, e) == [HashMismatch(e.seqNo, e.eventHash, EventHash(H, e).value)]
  {
    hide EventHash, EventInputs, SameRecord;
    NoEventFindings(H, last, expected, d);
    if EventHash(H, e) == Ok(e.eventHash) {
      SameHashSameRecord(H, e, d);
    }
  }

  /** Removing an interior block of a clean contiguous chain gives one gap and
      one broken link, where the block was. */
  lemma RemovalIsLocal(H: HashFn, es: seq<AuditEvent>, anchor: Hash32, i: nat, j: nat)
    requires Report(H, es, anchor).IsClean() && Contiguous(es)
    requires 0 < i < j < |es|
    ensures
      || Report(H, es[..i] + es[j..], anchor).violations ==
           [Gap(es[i - 1].seqNo, es[j].seqNo), BrokenLink(es[j].seqNo, es[i - 1].eventHash, es[j].prevHash)]
      || CollisionIn(H, EventInputs(es[i - 1]) + EventInputs(es[j - 1]))
  {
    hide EventHash, EventInputs, SameRecord, Findings, EventFindings, CollisionIn;
    var a, e, b := es[..i], es[j], es[j + 1..];
    BlockFindings(H, es, anchor, i, j);
    FindingsSplit(H, a, e, b, anchor);
    assert es[..i] + es[j..] == a + [e] + b;
    if !CollisionIn(H, EventInputs(es[i - 1]) + EventInputs(es[j - 1])) {
      PositionsGrow(es, i - 1, j - 1);
      PositionsGrow(es, j - 1, j);
      BlockEndsDiffer(H, es, anchor, i - 1, j - 1);
      RejoinedFindings(H, es[i - 1], es[j - 1], e);
    }
  }

  lemma BlockFindings(H: HashFn, es: seq<AuditEvent>, anchor: Hash32, i: nat, j: nat)
    requires Findings(H, es, None, anchor) == [] && 0 < i < j < |es|
    ensures Findings(H, es[..i], None, anchor) == []
    ensures EventFindings(H, Some(es[j - 1].seqNo), es[j - 1].eventHash, es[j]) == []
    ensures Findings(H, es[j + 1..], Some(es[j].seqNo), es[j].eventHash) == []
  {
    hide EventHash, Findings, EventFindings;
    assert es == es[..j] + [es[j]] + es[j + 1..];
    FindingsSplit(H, es[..j], es[j], es[j + 1..], anchor);
    assert es[..j] == es[..i] + es[i..j];
    FindingsAppend(H, es[..i], es[i..j], None, anchor);
  }

  lemma {:induction false} PositionsGrow(es: seq<AuditEvent>, i: nat, j: nat)
    requires Contiguous(es) && i <= j < |es|
    ensures es[j].seqNo == es[i].seqNo + (j - i)
    decreases j - i
  {
    if i < j {
      PositionsGrow(es, i, j - 1);
    }
  }

  lemma BlockEndsDiffer(H: HashFn, es: seq<AuditEvent>, anchor: Hash32, i: nat, j: nat)
    requires Report(H, es, anchor).IsClean() && i < |es| && j < |es| && es[i].seqNo != es[j].seqNo
    requires !CollisionIn(H, EventInputs(es[i]) + EventInputs(es[j]))
    ensures es[i].eventHash != es[j].eventHash
  {
    hide EventHash, EventInputs, SameRecord, Findings;
    CleanIff(H, es, anchor);
    assert es[i] in es && es[j] in es;
    if es[i].eventHash == es[j].eventHash {
      SameHashSameRecord(H, es[i], es[j]);
      RecordPosition(es[i], es[j]);
    }
  }

  lemma RejoinedFindings(H: HashFn, before: AuditEvent, cut: AuditEvent, e: AuditEvent)
    requires EventFindings(H, Some(cut.seqNo), cut.eventHash, e) == []
    requires before.seqNo < cut.seqNo && e.seqNo == cut.seqNo + 1
    requires before.eventHash != cut.eventHash
    ensures EventFindings(H, Some(before.seqNo), before.eventHash, e) ==
            [Gap(before.seqNo, e.seqNo), BrokenLink(e.seqNo, before.eventHash, e.prevHash)]
  {
    hide EventHash;
    NoEventFindings(H, Some(cut.seqNo), cut.eventHash, e);
  }
}
