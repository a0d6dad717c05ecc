/** Chain verification: the walk, its findings, and what they say. */
module Verify {
  import opened Wrappers
  import opened Hashing
  import opened Canon
  import opened Events
  import opened Chain
  import opened Merkle

  datatype Violation =
    | HashMismatch(seqNo: nat, stored: Hash32, computed: Hash32)
    | BrokenLink(seqNo: nat, expected: Hash32, found: Hash32)
    | Gap(after: nat, before: nat)
    | Fork(seqNo: nat)
    | UnknownCanonVersion(seqNo: nat, version: Str)
    | Unencodable(seqNo: nat, reason: CanonError)
  {
    /** Says something about the verifier, not about the chain. */
    predicate IsVerifierLimit() {
      UnknownCanonVersion?
    }
  }

  datatype ChainReport = ChainReport(
    eventsChecked: nat, seqFrom: nat, seqTo: nat, violations: seq<Violation>, headHash: Hash32, rootHash: Hash32)
  {
    predicate IsClean() {
      violations == []
    }

    predicate IsInconclusive() {
      violations != [] && forall v | v in violations :: v.IsVerifierLimit()
    }
  }

  // ----- The findings, event by event -----

  function PositionFindings(last: Option<u64>, e: AuditEvent): seq<Violation> {
    match last
    case None => []
    case Some(n) =>
      if e.seqNo == n then [Fork(e.seqNo)]
      else if e.seqNo > Bump(n) then [Gap(n, e.seqNo)]
      else []
  }

  function LinkFindings(expected: Hash32, e: AuditEvent): seq<Violation> {
    if e.prevHash != expected then [BrokenLink(e.seqNo, expected, e.prevHash)] else []
  }

  function ContentFindings(H: HashFn, e: AuditEvent): seq<Violation> {
    if e.canonVersion == CANON_VERSION then
      match EventHash(H, e)
      case Ok(computed) => if computed != e.eventHash then [HashMismatch(e.seqNo, e.eventHash, computed)] else []
      case Err(x) => [Unencodable(e.seqNo, x)]
    else [UnknownCanonVersion(e.seqNo, e.canonVersion)]
  }

  function EventFindings(H: HashFn, last: Option<u64>, expected: Hash32, e: AuditEvent): seq<Violation> {
    PositionFindings(last, e) + LinkFindings(expected, e) + ContentFindings(H, e)
  }

  function Findings(H: HashFn, es: seq<AuditEvent>, last: Option<u64>, expected: Hash32): seq<Violation> {
    if es == [] then []
    else EventFindings(H, last, expected, es[0]) + Findings(H, es[1..], Some(es[0].seqNo), es[0].eventHash)
  }

  function HeadOf(es: seq<AuditEvent>, anchor: Hash32): Hash32 {
    if es == [] then anchor else es[|es| - 1].eventHash
  }

  function LastSeq(es: seq<AuditEvent>, last: Option<u64>): Option<u64> {
    if es == [] then last else Some(es[|es| - 1].seqNo)
  }

  function StoredHashes(es: seq<AuditEvent>): (r: seq<Hash32>)
    ensures |r| == |es|
    ensures forall i :: 0 <= i < |es| ==> r[i] == es[i].eventHash
  {
    seq(|es|, i requires 0 <= i < |es| => es[i].eventHash)
  }

  /** The report on a range that should follow `anchor`. */
  function Report(H: HashFn, es: seq<AuditEvent>, anchor: Hash32): ChainReport {
    ChainReport(
      |es|, if es == [] then 0 else es[0].seqNo, if es == [] then 0 else es[|es| - 1].seqNo,
      Findings(H, es, None, anchor), HeadOf(es, anchor), TreeRoot(H, StoredHashes(es)))
  }

  /** The checks on one event, in order: position, link, contents. */
  method CheckEvent(H: HashFn, last: Option<u64>, expected: Hash32, event: AuditEvent) returns (found: seq<Violation>)
    ensures found == EventFindings(H, last, expected, event)
  {
    hide EventHash;
    found := [];
    if last.Some? {
      if event.seqNo == last.value {
        found := found + [Fork(event.seqNo)];
      } else if event.seqNo > Bump(last.value) {
        found := found + [Gap(last.value, event.seqNo)];
      }
    }
    assert found == PositionFindings(last, event);
    if event.prevHash != expected {
      found := found + [BrokenLink(event.seqNo, expected, event.prevHash)];
    }
    assert found == PositionFindings(last, event) + LinkFindings(expected, event);
    if event.canonVersion == CANON_VERSION {
      match EventHash(H, event) {
        case Ok(computed) =>
          if computed != event.eventHash {
            found := found + [HashMismatch(event.seqNo, event.eventHash, computed)];
          }
        case Err(x) =>
          found := found + [Unencodable(event.seqNo, x)];
      }
    } else {
      found := found + [UnknownCanonVersion(event.seqNo, event.canonVersion)];
    }
  }

  /** One pass over the events, re-anchoring on each event's own claim. */
  method VerifyRange(H: HashFn, es: seq<AuditEvent>, expectedPrev: Hash32) returns (report: ChainReport)
    ensures report == Report(H, es, expectedPrev)
  {
    hide TreeRoot, EventHash, Findings, HeadOf, StoredHashes, EventFindings;
    var eventsChecked: nat, seqFrom: nat, seqTo: nat, headHash := 0, 0, 0, expectedPrev;
    var violations: seq<Violation> := [];
    var expected := expectedPrev;
    var lastSeq: Option<u64> := None;
    var leaves: seq<Hash32> := [];
    assert es[0..] == es;
    for n := 0 to |es|
      invariant eventsChecked == n
      invariant n > 0 ==> seqFrom == es[0].seqNo && seqTo == es[n - 1].seqNo
      invariant n == 0 ==> seqFrom == 0 && seqTo == 0
      invariant lastSeq == if n == 0 then None else Some(es[n - 1].seqNo)
      invariant expected == headHash == if n == 0 then expectedPrev else es[n - 1].eventHash
      invariant violations + Findings(H, es[n..], lastSeq, expected) == Findings(H, es, None, expectedPrev)
      invariant |leaves| == n && forall k :: 0 <= k < n ==> leaves[k] == es[k].eventHash
    {
      var event := es[n];
      FindingsStep(H, es, n, violations, lastSeq, expected);
      if eventsChecked == 0 {
        seqFrom := event.seqNo;
      }
      seqTo := event.seqNo;
      eventsChecked := eventsChecked + 1;
      var found := CheckEvent(H, lastSeq, expected, event);
      violations := violations + found;
      lastSeq := Some(event.seqNo);
      leaves := leaves + [event.eventHash];
      expected := event.eventHash;
      headHash := event.eventHash;
    }
    FindingsEnd(H, es, lastSeq, expected);
    HeadDef(es, expectedPrev);
    assert leaves == StoredHashes(es);
    report := ChainReport(eventsChecked, seqFrom, seqTo, violations, headHash, TreeRoot(H, leaves));
  }

  lemma FindingsStep(H: HashFn, es: seq<AuditEvent>, n: nat, before: seq<Violation>, last: Option<u64>, expected: Hash32)
    requires n < |es|
    ensures before + Findings(H, es[n..], last, expected) ==
            (before + EventFindings(H, last, expected, es[n])) + Findings(H, es[n + 1..], Some(es[n].seqNo), es[n].eventHash)
  {
    hide EventHash;
    assert es[n..][1..] == es[n + 1..];
  }

  lemma FindingsEnd(H: HashFn, es: seq<AuditEvent>, last: Option<u64>, expected: Hash32)
    ensures Findings(H, es[|es|..], last, expected) == []
  {
    hide EventFindings;
  }

  lemma HeadDef(es: seq<AuditEvent>, anchor: Hash32)
    ensures HeadOf(es, anchor) == if |es| == 0 then anchor else es[|es| - 1].eventHash
  {
  }
}
