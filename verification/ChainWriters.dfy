/** The mutable per-chain cursor, proved against the functions of `Cursors`. */
module ChainWriters {
  import opened Wrappers
  import opened Hashing
  import opened Canon
  import opened Events
  import opened Chain
  import C = Cursors

  class ChainWriter {
    const chain: ChainId
    const nodeId: Str
    var nextSeq: u64
    var headHash: Hash32
    var seen: map<C.EventId, nat>
    var seenOrder: seq<C.EventId>
    var lastHeartbeatDay: Option<int>

    ghost function State(): C.Cursor
      reads this
    {
      C.Cursor(chain, nodeId, nextSeq, headHash, seen, seenOrder, lastHeartbeatDay)
    }

    constructor ResumeFrom(chain: ChainId, nodeId: Str, lastSeq: u64, headHash: Hash32)
      ensures State() == C.Resume(chain, nodeId, lastSeq, headHash)
    {
      this.chain, this.nodeId := chain, nodeId;
      nextSeq, this.headHash := Bump(lastSeq), headHash;
      seen, seenOrder, lastHeartbeatDay := map[], [], None;
    }

    method Append(H: HashFn, event: EmittedEvent) returns (r: Result<AuditEvent, C.IngestError>, ghost now: i64)
      modifies this
      ensures match C.Append(H, old(State()), event, now)
              case Ok((w, chained)) => r == Ok(chained) && State() == w
              case Err(x) => r == Err(x) && State() == old(State())
    {
      if event.eventId in seen {
        r, now := Err(C.Duplicate(event.eventId, seen[event.eventId])), 0;
      } else {
        r, now := ChainEvent(H, event);
      }
    }

    method ChainEvent(H: HashFn, emitted: EmittedEvent) returns (r: Result<AuditEvent, C.IngestError>, ghost now: i64)
      modifies this
      ensures match C.ChainEvent(H, old(State()), emitted, now)
              case Ok((w, chained)) => r == Ok(chained) && State() == w
              case Err(x) => r == Err(x) && State() == old(State())
    {
      hide Sealed, C.Trim;
      var clock: i64 := *;
      now := clock;
      var seqNo := nextSeq;
      var event := AuditEvent(seqNo, headHash, GENESIS, CANON_VERSION, clock, emitted, [], []);
      match Sealed(H, event) {
        case Err(x) => r := Err(C.Unchainable(x));
        case Ok(stamped) =>
          headHash := stamped.eventHash;
          nextSeq := Bump(nextSeq);
          Remember(emitted.eventId, seqNo);
          r := Ok(stamped);
      }
    }

    method Remember(eventId: C.EventId, seqNo: nat)
      modifies this
      ensures State() == C.Remember(old(State()), eventId, seqNo)
    {
      seen := seen[eventId := seqNo];
      seenOrder := seenOrder + [eventId];
      while |seenOrder| > C.DEDUPE_WINDOW
        invariant C.Trim(State()) == C.Remember(old(State()), eventId, seqNo)
        decreases |seenOrder|
      {
        var oldest := seenOrder[0];
        seenOrder := seenOrder[1..];
        seen := seen - {oldest};
      }
    }

    method RewindTo(nextSeq: u64, headHash: Hash32)
      modifies this
      ensures State() == C.RewindTo(old(State()), nextSeq, headHash)
    {
      this.nextSeq := nextSeq;
      this.headHash := headHash;
      ForgetAfter(nextSeq);
    }

    method ForgetAfter(seqNo: nat)
      modifies this
      ensures State() == C.ForgetAfter(old(State()), seqNo)
    {
      seen := map id | id in seen && seen[id] < seqNo :: seen[id];
      var live, kept, n := seen.Keys, [], |seenOrder|;
      assert seenOrder[0..] == seenOrder;
      for i := 0 to n
        invariant kept + C.Retain(seenOrder[i..], live) == C.Retain(seenOrder, live)
        invariant State() == old(State()).(seen := C.Earlier(old(seen), seqNo))
      {
        assert seenOrder[i..][1..] == seenOrder[i + 1..];
        if seenOrder[i] in live {
          kept := kept + [seenOrder[i]];
        }
      }
      seenOrder := kept;
    }

    /** `None` if the day is marked already. */
    method Heartbeat(H: HashFn, now: i64) returns (r: Option<Result<AuditEvent, C.IngestError>>, ghost stamp: i64)
      modifies this
      ensures (State(), r) == C.Heartbeat(H, old(State()), now, stamp)
    {
      hide C.Append;
      var day := C.DayOf(now);
      if lastHeartbeatDay == Some(day) {
        return None, 0;
      }
      lastHeartbeatDay := Some(day);
      var id := C.HeartbeatId(H, chain, day);
      var emitted := EmittedEvent(
        chain.tenantId, chain.systemId, id, [], 0, now, nodeId, Ascii("chain.heartbeat"), Ascii("ok"),
        C.NullBaseline(), GENESIS, GENESIS, Metrics([], 0, 0, 0, 0, 0, []));
      var appended;
      appended, stamp := Append(H, emitted);
      r := Some(appended);
    }
  }
}
