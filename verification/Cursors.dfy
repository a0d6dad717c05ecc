/**
 * One chain's cursor: allocating positions, chaining, remembering recent event
 * ids, and going back when a batch was chained but never stored.
 *
 * `Cursor` is the abstract state of the class `ChainWriters.ChainWriter`; each of its methods is
 * proved to do what the function of the same name says.
 */
module Cursors {
  import opened Wrappers
  import opened Hashing
  import opened Canon
  import opened Events
  import opened Chain
  import opened Verify
  import opened VerifyTheorems

  /** How many recent event ids are remembered. */
  const DEDUPE_WINDOW: nat := 100_000

  const MICROS_PER_DAY: int := 86_400_000_000

  type EventId = Str

  datatype IngestError =
    | StoreDown
    | Unchainable(reason: CanonError)
    | Duplicate(eventId: EventId, seqNo: nat)

  datatype Cursor = Cursor(
    chain: ChainId, nodeId: Str, nextSeq: u64, head: Hash32,
    seen: map<EventId, nat>, seenOrder: seq<EventId>, lastHeartbeat: Option<int>)

  function Resume(chain: ChainId, nodeId: Str, lastSeq: u64, head: Hash32): Cursor {
    Cursor(chain, nodeId, Bump(lastSeq), head, map[], [], None)
  }

  function Fresh(chain: ChainId, nodeId: Str): Cursor {
    Resume(chain, nodeId, 0, GENESIS)
  }

  /** Forget the oldest ids until the window holds. */
  function Trim(w: Cursor): Cursor
    decreases |w.seenOrder|
  {
    if |w.seenOrder| > DEDUPE_WINDOW then
      Trim(w.(seenOrder := w.seenOrder[1..], seen := w.seen - {w.seenOrder[0]}))
    else w
  }

  function Remember(w: Cursor, id: EventId, at: nat): Cursor {
    Trim(w.(seen := w.seen[id := at], seenOrder := w.seenOrder + [id]))
  }

  /** The event as it is about to be sealed. */
  function Unsealed(w: Cursor, e: EmittedEvent, now: i64): AuditEvent {
    AuditEvent(w.nextSeq, w.head, GENESIS, CANON_VERSION, now, e, [], [])
  }

  function ChainEvent(H: HashFn, w: Cursor, e: EmittedEvent, now: i64): Result<(Cursor, AuditEvent), IngestError> {
    match Sealed(H, Unsealed(w, e, now))
    case Err(x) => Err(Unchainable(x))
    case Ok(event) =>
      Ok((Remember(w.(head := event.eventHash, nextSeq := Bump(w.nextSeq)), e.eventId, w.nextSeq), event))
  }

  function Append(H: HashFn, w: Cursor, e: EmittedEvent, now: i64): Result<(Cursor, AuditEvent), IngestError> {
    if e.eventId in w.seen then Err(Duplicate(e.eventId, w.seen[e.eventId]))
    else ChainEvent(H, w, e, now)
  }

  function Retain(order: seq<EventId>, live: set<EventId>): seq<EventId> {
    if order == [] then [] else (if order[0] in live then [order[0]] else []) + Retain(order[1..], live)
  }

  function Earlier(seen: map<EventId, nat>, at: nat): map<EventId, nat> {
    map id | id in seen && seen[id] < at :: seen[id]
  }

  function ForgetAfter(w: Cursor, at: nat): Cursor {
    w.(seen := Earlier(w.seen, at), seenOrder := Retain(w.seenOrder, Earlier(w.seen, at).Keys))
  }

  function RewindTo(w: Cursor, nextSeq: u64, head: Hash32): Cursor {
    ForgetAfter(w.(nextSeq := nextSeq, head := head), nextSeq)
  }

  // ----- Heartbeats -----

  const UNKNOWN: Str := Ascii("unknown")

  function NullBaseline(): Pins {
    Pins(0, GENESIS, UNKNOWN, UNKNOWN, UNKNOWN, UNKNOWN, UNKNOWN, UNKNOWN, UNKNOWN, UNKNOWN, UNKNOWN, UNKNOWN,
         Ascii("unclassified"), false, [])
  }

  function Digits(n: nat): Bytes {
    (if n < 10 then [] else Digits(n / 10)) + [(48 + n % 10) as byte]
  }

  function Decimal(n: int): Bytes {
    if n < 0 then [45] + Digits(-n) else Digits(n)
  }

  function HeartbeatInput(chain: ChainId, day: int): Bytes {
    Ascii("ancre-heartbeat/1|") + chain.tenantId + [124] + chain.systemId + [124] + Decimal(day)
  }

  /** Sixteen bytes, determined by the chain and the day. */
  function HeartbeatId(H: HashFn, chain: ChainId, day: int): EventId {
    H(HeartbeatInput(chain, day))[..16]
  }

  function HeartbeatEvent(H: HashFn, w: Cursor, day: int, now: i64): EmittedEvent {
    EmittedEvent(
      w.chain.tenantId, w.chain.systemId, HeartbeatId(H, w.chain, day), [], 0, now, w.nodeId,
      Ascii("chain.heartbeat"), Ascii("ok"), NullBaseline(), GENESIS, GENESIS, Metrics([], 0, 0, 0, 0, 0, []))
  }

  function DayOf(now: i64): int {
    now / MICROS_PER_DAY
  }

  /** The cursor after a heartbeat is offered, and what came of it: nothing if
      the day is marked already. */
  function Heartbeat(H: HashFn, w: Cursor, now: i64, ingestedAt: i64): (Cursor, Option<Result<AuditEvent, IngestError>>) {
    var day := DayOf(now);
    if w.lastHeartbeat == Some(day) then (w, None)
    else
      var marked := w.(lastHeartbeat := Some(day));
      match Append(H, marked, HeartbeatEvent(H, w, day, now), ingestedAt)
      case Err(x) => (marked, Some(Err(x)))
      case Ok((w', event)) => (w', Some(Ok(event)))
  }

  // ----- Where a cursor stands -----

  /** Rows of one chain, complete from position 1 and verifying. */
  ghost predicate GoodRows(H: HashFn, chain: ChainId, rows: seq<AuditEvent>) {
    && (forall i :: 0 <= i < |rows| ==> rows[i].seqNo == i + 1)
    && Linked(rows, GENESIS)
    && (forall e | e in rows :: Rehashes(H, e))
    && (forall e | e in rows :: e.emitted.Chain() == chain)
  }

  /** The remembered ids are exactly those of the last `|seenOrder|` rows. */
  ghost predicate RemembersTail(w: Cursor, rows: seq<AuditEvent>) {
    && |w.seenOrder| <= |rows| && |w.seenOrder| <= DEDUPE_WINDOW
    && (forall i :: 0 <= i < |w.seenOrder| ==>
          w.seenOrder[i] == rows[|rows| - |w.seenOrder| + i].emitted.eventId)
  }

  /** `seen` maps each remembered id to its position, and nothing else. */
  ghost predicate IndexExact(w: Cursor) {
    && (forall i, j :: 0 <= i < j < |w.seenOrder| ==> w.seenOrder[i] != w.seenOrder[j])
    && (forall id :: id in w.seen <==> id in w.seenOrder)
    && (forall i :: 0 <= i < |w.seenOrder| ==>
          w.seenOrder[i] in w.seen && w.seen[w.seenOrder[i]] == w.nextSeq - |w.seenOrder| + i)
  }

  /** The cursor stands at the head of `rows`. */
  ghost predicate Stands(w: Cursor, chain: ChainId, rows: seq<AuditEvent>) {
    && w.chain == chain
    && w.nextSeq == |rows| + 1
    && w.head == HeadOf(rows, GENESIS)
    && RemembersTail(w, rows)
    && IndexExact(w)
  }

  lemma ResumeStands(H: HashFn, chain: ChainId, nodeId: Str, rows: seq<AuditEvent>)
    requires GoodRows(H, chain, rows) && |rows| < U64_MAX
    ensures rows == [] ==> Stands(Fresh(chain, nodeId), chain, rows)
    ensures rows != [] ==> Stands(Resume(chain, nodeId, rows[|rows| - 1].seqNo, rows[|rows| - 1].eventHash), chain, rows)
  {
    hide Rehashes, Linked;
  }

  lemma PushKeepsExact(w: Cursor, id: EventId)
    requires IndexExact(w) && id !in w.seen && w.nextSeq < U64_MAX
    ensures IndexExact(Pushed(w, id))
  {
    var order := w.seenOrder + [id];
    assert forall i :: 0 <= i < |w.seenOrder| ==> order[i] == w.seenOrder[i] && order[i] in w.seenOrder && order[i] != id;
    assert forall x :: x in order <==> x in w.seenOrder || x == id;
  }

  lemma DropKeepsExact(w: Cursor)
    requires IndexExact(w) && w.seenOrder != []
    ensures IndexExact(Dropped(w))
  {
    var order := w.seenOrder;
    assert forall i :: 0 <= i < |order| - 1 ==> order[1..][i] == order[i + 1];
    assert forall x :: x in order <==> x == order[0] || x in order[1..];
    assert order[0] !in order[1..];
  }

  lemma TrimOnce(w: Cursor)
    requires |w.seenOrder| <= DEDUPE_WINDOW + 1
    ensures |w.seenOrder| <= DEDUPE_WINDOW ==> Trim(w) == w
    ensures |w.seenOrder| > DEDUPE_WINDOW ==> Trim(w) == Dropped(w)
  {
    if |w.seenOrder| > DEDUPE_WINDOW {
      assert Trim(Dropped(w)) == Dropped(w);
    }
  }

  /** Remembering keeps the index exact, and evicts at most the oldest id. */
  lemma RememberExact(w: Cursor, head: Hash32, id: EventId) returns (w': Cursor)
    requires IndexExact(w) && id !in w.seen && |w.seenOrder| <= DEDUPE_WINDOW && w.nextSeq < U64_MAX
    ensures w' == Remember(w.(head := head, nextSeq := w.nextSeq + 1), id, w.nextSeq)
    ensures IndexExact(w')
    ensures w' == w.(head := head, nextSeq := w.nextSeq + 1, seen := w'.seen, seenOrder := w'.seenOrder)
    ensures w'.seenOrder == if |w.seenOrder| == DEDUPE_WINDOW then w.seenOrder[1..] + [id] else w.seenOrder + [id]
  {
    hide Remember, IndexExact;
    ExactIgnoresHead(w, head);
    PushKeepsExact(w.(head := head), id);
    RememberShape(w.(head := head, nextSeq := w.nextSeq + 1), id, w.nextSeq);
    w' := Pushed(w.(head := head), id);
    if |w.seenOrder| == DEDUPE_WINDOW {
      DropKeepsExact(w');
      PushThenDrop(w.seenOrder, id);
      w' := Dropped(w');
    }
  }

  /** One more id at the end, at the next position. */
  function Pushed(w: Cursor, id: EventId): Cursor
    requires w.nextSeq < U64_MAX
  {
    w.(nextSeq := w.nextSeq + 1, seen := w.seen[id := w.nextSeq], seenOrder := w.seenOrder + [id])
  }

  /** The oldest id forgotten. */
  function Dropped(w: Cursor): Cursor
    requires w.seenOrder != []
  {
    w.(seenOrder := w.seenOrder[1..], seen := w.seen - {w.seenOrder[0]})
  }

  lemma PushThenDrop(order: seq<EventId>, id: EventId)
    requires order != []
    ensures (order + [id])[1..] == order[1..] + [id]
  {
  }

  lemma ExactIgnoresHead(w: Cursor, head: Hash32)
    requires IndexExact(w)
    ensures IndexExact(w.(head := head))
  {
  }

  lemma RememberShape(w: Cursor, id: EventId, at: nat)
    requires |w.seenOrder| <= DEDUPE_WINDOW
    ensures var full := w.(seen := w.seen[id := at], seenOrder := w.seenOrder + [id]);
            Remember(w, id, at) == if |w.seenOrder| == DEDUPE_WINDOW then Dropped(full) else full
  {
    hide Trim;
    TrimOnce(w.(seen := w.seen[id := at], seenOrder := w.seenOrder + [id]));
  }

  /** Appending an event not remembered puts the cursor at the head of the rows
      with that event added, and the rows still verify. */
  lemma AppendStands(H: HashFn, w: Cursor, chain: ChainId, rows: seq<AuditEvent>, e: EmittedEvent, now: i64)
    requires GoodRows(H, chain, rows) && Stands(w, chain, rows)
    requires e.Chain() == chain && |rows| + 1 < U64_MAX && e.eventId !in w.seen
    ensures Append(H, w, e, now).Ok?
    ensures
      var (w', event) := Append(H, w, e, now).value;
      && event == AuditEvent(|rows| + 1, HeadOf(rows, GENESIS), event.eventHash, CANON_VERSION, now, e, [], [])
      && GoodRows(H, chain, rows + [event]) && Stands(w', chain, rows + [event])
      && w'.nodeId == w.nodeId && w'.lastHeartbeat == w.lastHeartbeat
      && |w'.seenOrder| == if |w.seenOrder| == DEDUPE_WINDOW then DEDUPE_WINDOW else |w.seenOrder| + 1
  {
    hide GoodRows, RemembersTail, IndexExact, Remember;
    var event := SealedNext(H, w, e, now);
    assert |w.seenOrder| <= DEDUPE_WINDOW by { TailBounded(w, rows); }
    var w' := RememberExact(w, event.eventHash, e.eventId);
    OneMoreRow(H, chain, rows, event);
    TailGrows(w, w', rows, event);
  }

  lemma TailBounded(w: Cursor, rows: seq<AuditEvent>)
    requires RemembersTail(w, rows)
    ensures |w.seenOrder| <= |rows| && |w.seenOrder| <= DEDUPE_WINDOW
  {
  }

  /** Chaining an event cannot fail, and stamps it with its own hash. */
  lemma SealedNext(H: HashFn, w: Cursor, e: EmittedEvent, now: i64) returns (event: AuditEvent)
    requires w.nextSeq < U64_MAX
    ensures event == AuditEvent(w.nextSeq, w.head, event.eventHash, CANON_VERSION, now, e, [], []) && Rehashes(H, event)
    ensures ChainEvent(H, w, e, now) ==
            Ok((Remember(w.(head := event.eventHash, nextSeq := w.nextSeq + 1), e.eventId, w.nextSeq), event))
  {
    hide EventHash, HashedView, Remember;
    var u := Unsealed(w, e, now);
    SealTotal(H, u);
    SealedRehashes(H, u);
    event := Sealed(H, u).value;
  }

  lemma OneMoreRow(H: HashFn, chain: ChainId, rows: seq<AuditEvent>, event: AuditEvent)
    requires GoodRows(H, chain, rows) && event.seqNo == |rows| + 1 && event.prevHash == HeadOf(rows, GENESIS)
    requires Rehashes(H, event) && event.emitted.Chain() == chain
    ensures GoodRows(H, chain, rows + [event])
  {
    hide Rehashes, Linked;
    LinkedOneMore(rows, event, GENESIS);
  }

  lemma LinkedOneMore(rows: seq<AuditEvent>, event: AuditEvent, anchor: Hash32)
    requires Linked(rows, anchor) && event.prevHash == HeadOf(rows, anchor)
    ensures Linked(rows + [event], anchor)
  {
    var after := rows + [event];
    forall i | 0 <= i < |after|
      ensures after[i].prevHash == PrevHash(after, anchor, i)
    {
      if i < |rows| {
        assert after[i] == rows[i] && PrevHash(after, anchor, i) == PrevHash(rows, anchor, i);
      } else {
        assert PrevHash(after, anchor, i) == HeadOf(rows, anchor);
      }
    }
  }

  lemma TailGrows(w: Cursor, w': Cursor, rows: seq<AuditEvent>, event: AuditEvent)
    requires RemembersTail(w, rows)
    requires w'.seenOrder ==
             if |w.seenOrder| == DEDUPE_WINDOW then w.seenOrder[1..] + [event.emitted.eventId]
             else w.seenOrder + [event.emitted.eventId]
    ensures RemembersTail(w', rows + [event])
  {
    var after, k := rows + [event], |w.seenOrder|;
    forall i | 0 <= i < |w'.seenOrder|
      ensures w'.seenOrder[i] == after[|after| - |w'.seenOrder| + i].emitted.eventId
    {
      var j := if k == DEDUPE_WINDOW then i + 1 else i;
      assert j < k ==> w'.seenOrder[i] == w.seenOrder[j] == rows[|rows| - k + j].emitted.eventId;
    }
  }

  /** A remembered id belongs to a row. */
  lemma RememberedIsARow(w: Cursor, chain: ChainId, rows: seq<AuditEvent>, id: EventId)
    requires Stands(w, chain, rows) && id in w.seen
    ensures exists e :: e in rows && e.emitted.eventId == id
  {
    var i :| 0 <= i < |w.seenOrder| && w.seenOrder[i] == id;
    assert rows[|rows| - |w.seenOrder| + i] in rows;
  }

  // ----- Going back -----

  lemma {:induction false} RetainPrefix(order: seq<EventId>, live: set<EventId>, k: nat)
    requires k <= |order|
    requires forall i :: 0 <= i < |order| ==> (order[i] in live <==> i < k)
    ensures Retain(order, live) == order[..k]
  {
    if order != [] {
      var t := order[1..];
      assert forall i :: 0 <= i < |t| ==> t[i] == order[i + 1];
      RetainPrefix(t, live, if k == 0 then 0 else k - 1);
      if k > 0 {
        assert order[..k] == [order[0]] + t[..k - 1];
      }
    }
  }

  /** How many remembered ids survive forgetting the last `n` events. */
  function Survivors(w: Cursor, n: nat): nat {
    if |w.seenOrder| > n then |w.seenOrder| - n else 0
  }

  /** Going back over events that were chained but never stored leaves the
      cursor at the head of what is stored, remembering what of it survives. */
  lemma RewindStands(w: Cursor, chain: ChainId, rows: seq<AuditEvent>, unstored: seq<AuditEvent>)
    requires Stands(w, chain, rows + unstored) && |rows| < U64_MAX
    ensures
      var back := RewindTo(w, |rows| + 1, HeadOf(rows, GENESIS));
      && Stands(back, chain, rows)
      && back.seenOrder == w.seenOrder[..Survivors(w, |unstored|)]
      && back.nodeId == w.nodeId && back.lastHeartbeat == w.lastHeartbeat
  {
    hide IndexExact, RemembersTail, Retain, Earlier;
    var k, at := Survivors(w, |unstored|), |rows| + 1;
    var live := Earlier(w.seen, at);
    SurvivorsAreEarlier(w, at, |unstored|);
    RetainPrefix(w.seenOrder, live.Keys, k);
    PrefixExact(w, at, HeadOf(rows, GENESIS), k);
    TailShrinks(w, RewindTo(w, at, HeadOf(rows, GENESIS)), rows, unstored);
  }

  lemma SurvivorsAreEarlier(w: Cursor, at: nat, n: nat)
    requires IndexExact(w) && w.nextSeq == at + n
    ensures forall i :: 0 <= i < |w.seenOrder| ==>
              (w.seenOrder[i] in Earlier(w.seen, at) <==> i < Survivors(w, n))
  {
    forall i | 0 <= i < |w.seenOrder|
      ensures w.seenOrder[i] in Earlier(w.seen, at) <==> i < Survivors(w, n)
    {
      assert w.seen[w.seenOrder[i]] == w.nextSeq - |w.seenOrder| + i;
    }
  }

  lemma PrefixExact(w: Cursor, nextSeq: u64, head: Hash32, k: nat)
    requires IndexExact(w) && k <= |w.seenOrder| && nextSeq <= w.nextSeq
    requires k > 0 ==> k - |w.seenOrder| == nextSeq - w.nextSeq
    requires forall i :: 0 <= i < |w.seenOrder| ==> (w.seenOrder[i] in Earlier(w.seen, nextSeq) <==> i < k)
    ensures IndexExact(w.(nextSeq := nextSeq, head := head, seen := Earlier(w.seen, nextSeq), seenOrder := w.seenOrder[..k]))
  {
    var order := w.seenOrder[..k];
    assert forall i :: 0 <= i < k ==> order[i] == w.seenOrder[i];
    forall id
      ensures id in Earlier(w.seen, nextSeq) <==> id in order
    {
      if id in Earlier(w.seen, nextSeq) {
        var i :| 0 <= i < |w.seenOrder| && w.seenOrder[i] == id;
        assert order[i] == id;
      }
    }
  }

  lemma TailShrinks(w: Cursor, back: Cursor, rows: seq<AuditEvent>, unstored: seq<AuditEvent>)
    requires RemembersTail(w, rows + unstored)
    requires back.seenOrder == w.seenOrder[..Survivors(w, |unstored|)]
    ensures RemembersTail(back, rows)
  {
    var all, k := rows + unstored, |back.seenOrder|;
    forall i | 0 <= i < k
      ensures back.seenOrder[i] == rows[|rows| - k + i].emitted.eventId
    {
      assert w.seenOrder[i] == all[|all| - |w.seenOrder| + i].emitted.eventId;
    }
  }
}
