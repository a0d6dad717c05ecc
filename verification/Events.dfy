/**
 * The audit event, the explicit list of its hashed fields, and their encoding.
 *
 * Enumerations (event type, outcome, risk class, risk flags) are held in the
 * frozen wire form that is hashed.
 */
module Events {
  import opened Wrappers
  import opened Hashing
  import opened Canon
  import opened CanonTheorems

  type i64 = n: int | -0x8000_0000_0000_0000 <= n < 0x8000_0000_0000_0000

  /** A list whose length is a machine word. */
  type Flags = s: seq<Str> | |s| < 0x1_0000_0000_0000_0000 witness []

  datatype ChainId = ChainId(tenantId: Str, systemId: Str)

  datatype Pins = Pins(
    configGeneration: u64, configHash: Hash32, systemId: Str, systemVersion: Str, ifuVersion: Str,
    modelId: Str, modelVersion: Str, promptId: Str, promptVersion: Str, policyId: Str,
    policyVersion: Str, gatewayVersion: Str, riskClass: Str, resolvedStale: bool, riskFlags: Flags)

  datatype Metrics = Metrics(
    provider: Str, httpStatus: u64, latencyMs: u64, ttftMs: u64, tokensIn: u64, tokensOut: u64,
    errorCode: Str)

  /** What a gateway emits: everything but the chain fields. */
  datatype EmittedEvent = EmittedEvent(
    tenantId: Str, systemId: Str, eventId: Str, traceId: Str, attemptSeq: u64, occurredAt: i64,
    nodeId: Str, eventType: Str, outcome: Str, pins: Pins, requestDigest: Hash32,
    responseDigest: Hash32, metrics: Metrics)
  {
    function Chain(): ChainId {
      ChainId(tenantId, systemId)
    }
  }

  /** The chained, stored event. */
  datatype AuditEvent = AuditEvent(
    seqNo: u64, prevHash: Hash32, eventHash: Hash32, canonVersion: Str, ingestedAt: i64,
    emitted: EmittedEvent, payloadRef: Str, subjectKeyId: Str)

  /** Exactly what is hashed: not `eventHash`, not `ingestedAt`, and only the
      event's own copy of the system id. */
  datatype HashedBody = HashedBody(
    tenantId: Str, systemId: Str, seqNo: u64, eventId: Str, traceId: Str, attemptSeq: u64,
    prevHash: Hash32, canonVersion: Str, occurredAt: i64, nodeId: Str, eventType: Str, outcome: Str,
    configGeneration: u64, configHash: Hash32, systemVersion: Str, ifuVersion: Str, modelId: Str,
    modelVersion: Str, promptId: Str, promptVersion: Str, policyId: Str, policyVersion: Str,
    gatewayVersion: Str, riskClass: Str, resolvedStale: bool, riskFlags: Flags,
    requestDigest: Hash32, responseDigest: Hash32, payloadRef: Str, subjectKeyId: Str,
    provider: Str, httpStatus: u64, latencyMs: u64, ttftMs: u64, tokensIn: u64, tokensOut: u64,
    errorCode: Str)

  function InsertFlag(f: Str, sorted: seq<Str>): (r: seq<Str>)
    ensures |r| == |sorted| + 1
  {
    if sorted == [] || !LexLess(sorted[0], f) then [f] + sorted
    else [sorted[0]] + InsertFlag(f, sorted[1..])
  }

  /** Flags are a set: the order they were collected in is not hashed. */
  function SortFlags(flags: seq<Str>): (r: seq<Str>)
    ensures |r| == |flags|
  {
    if flags == [] then [] else InsertFlag(flags[0], SortFlags(flags[1..]))
  }

  function HashedView(e: AuditEvent): HashedBody {
    var m, p, k := e.emitted, e.emitted.pins, e.emitted.metrics;
    HashedBody(
      m.tenantId, m.systemId, e.seqNo, m.eventId, m.traceId, m.attemptSeq,
      e.prevHash, e.canonVersion, m.occurredAt, m.nodeId, m.eventType, m.outcome,
      p.configGeneration, p.configHash, p.systemVersion, p.ifuVersion, p.modelId,
      p.modelVersion, p.promptId, p.promptVersion, p.policyId, p.policyVersion,
      p.gatewayVersion, p.riskClass, p.resolvedStale, SortFlags(p.riskFlags),
      m.requestDigest, m.responseDigest, e.payloadRef, e.subjectKeyId,
      k.provider, k.httpStatus, k.latencyMs, k.ttftMs, k.tokensIn, k.tokensOut, k.errorCode)
  }

  // ----- The hashed body as a CBOR map -----

  function FieldNames(): seq<string> {
    ["tenant_id", "system_id", "seq", "event_id", "trace_id", "attempt_seq",
     "prev_hash", "canon_version", "occurred_at", "node_id", "event_type", "outcome",
     "config_generation", "config_hash", "system_version", "ifu_version", "model_id",
     "model_version", "prompt_id", "prompt_version", "policy_id", "policy_version",
     "gateway_version", "risk_class", "resolved_stale", "risk_flags",
     "request_digest", "response_digest", "payload_ref", "subject_key_id",
     "provider", "http_status", "latency_ms", "ttft_ms", "tokens_in", "tokens_out", "error_code"]
  }

  function Int(n: i64): Value {
    if n >= 0 then Unsigned(n) else Negative(-1 - n)
  }

  function Texts(flags: seq<Str>): (r: seq<Value>)
    ensures |r| == |flags|
    ensures forall i :: 0 <= i < |r| ==> r[i] == Text(flags[i])
  {
    seq(|flags|, i requires 0 <= i < |flags| => Text(flags[i]))
  }

  function OriginValues(b: HashedBody): (r: seq<Value>)
    ensures |r| == 12
  {
    [Text(b.tenantId), Text(b.systemId), Unsigned(b.seqNo), ByteString(b.eventId), Text(b.traceId), Unsigned(b.attemptSeq),
     ByteString(b.prevHash), Text(b.canonVersion), Int(b.occurredAt), Text(b.nodeId), Text(b.eventType), Text(b.outcome)]
  }

  function PinValues(b: HashedBody): (r: seq<Value>)
    ensures |r| == 14
  {
    [Unsigned(b.configGeneration), ByteString(b.configHash), Text(b.systemVersion), Text(b.ifuVersion), Text(b.modelId),
     Text(b.modelVersion), Text(b.promptId), Text(b.promptVersion), Text(b.policyId), Text(b.policyVersion),
     Text(b.gatewayVersion), Text(b.riskClass), Bool(b.resolvedStale), Array(Texts(b.riskFlags))]
  }

  function PayloadValues(b: HashedBody): (r: seq<Value>)
    ensures |r| == 11
  {
    [ByteString(b.requestDigest), ByteString(b.responseDigest), Text(b.payloadRef), Text(b.subjectKeyId),
     Text(b.provider), Unsigned(b.httpStatus), Unsigned(b.latencyMs), Unsigned(b.ttftMs), Unsigned(b.tokensIn),
     Unsigned(b.tokensOut), Text(b.errorCode)]
  }

  /** The field values, in the order of `FieldNames`. */
  function FieldValues(b: HashedBody): (r: seq<Value>)
    ensures |r| == |FieldNames()|
  {
    OriginValues(b) + PinValues(b) + PayloadValues(b)
  }

  /** A struct as a map from its field names to its field values. */
  function Struct(names: seq<Str>, values: seq<Value>): Value
    requires |names| == |values|
  {
    Map(seq(|names|, i requires 0 <= i < |names| => Entry(Text(names[i]), values[i])))
  }

  ghost predicate NoRepeats(names: seq<Str>) {
    forall i, j :: 0 <= i < j < |names| ==> names[i] != names[j]
  }

  lemma FieldNamesDistinct()
    ensures forall i, j :: 0 <= i < j < |FieldNames()| ==> FieldNames()[i] != FieldNames()[j]
  {
    IdentityNamesDistinct();
    ChainNamesDistinct();
    OriginNamesDistinct();
    PinNamesDistinct();
    OtherNamesDistinct();
  }

  lemma IdentityNamesDistinct()
    ensures forall i, j :: 0 <= i < 3 && i < j < |FieldNames()| ==> FieldNames()[i] != FieldNames()[j]
  {
  }

  lemma ChainNamesDistinct()
    ensures forall i, j :: 3 <= i < 7 && i < j < |FieldNames()| ==> FieldNames()[i] != FieldNames()[j]
  {
  }

  lemma OriginNamesDistinct()
    ensures forall i, j :: 7 <= i < 12 && i < j < |FieldNames()| ==> FieldNames()[i] != FieldNames()[j]
  {
  }

  lemma PinNamesDistinct()
    ensures forall i, j :: 12 <= i < 26 && i < j < |FieldNames()| ==> FieldNames()[i] != FieldNames()[j]
  {
  }

  lemma OtherNamesDistinct()
    ensures forall i, j :: 26 <= i < 37 && i < j < |FieldNames()| ==> FieldNames()[i] != FieldNames()[j]
  {
  }

  lemma FieldNamesAscii()
    ensures forall i :: 0 <= i < |FieldNames()| ==> IsAscii(FieldNames()[i])
  {
    FirstNamesAscii();
    LastNamesAscii();
  }

  lemma FirstNamesAscii()
    ensures forall i :: 0 <= i < 18 ==> IsAscii(FieldNames()[i])
  {
  }

  lemma LastNamesAscii()
    ensures forall i :: 18 <= i < |FieldNames()| ==> IsAscii(FieldNames()[i])
  {
  }

  function Names(names: seq<string>): (r: seq<Str>)
    requires forall i :: 0 <= i < |names| ==> IsAscii(names[i]) && |names[i]| < 0x1_0000
    ensures |r| == |names|
  {
    seq(|names|, i requires 0 <= i < |names| => Ascii(names[i]))
  }

  lemma NamesKeepDistinct(names: seq<string>)
    requires forall i :: 0 <= i < |names| ==> IsAscii(names[i]) && |names[i]| < 0x1_0000
    requires forall i, j :: 0 <= i < j < |names| ==> names[i] != names[j]
    ensures NoRepeats(Names(names))
  {
    var r := Names(names);
    forall i, j | 0 <= i < j < |names|
      ensures r[i] != r[j]
    {
      if |names[i]| == |names[j]| {
        var k :| 0 <= k < |names[i]| && names[i][k] != names[j][k];
        assert r[i][k] as int == names[i][k] as int;
        assert r[j][k] as int == names[j][k] as int;
      }
    }
  }

  lemma FieldNamesShort()
    ensures forall i :: 0 <= i < |FieldNames()| ==> |FieldNames()[i]| < 0x1_0000
  {
  }

  function BodyValue(b: HashedBody): Value {
    FieldNamesAscii();
    FieldNamesShort();
    Struct(Names(FieldNames()), FieldValues(b))
  }

  /** The exact bytes that are hashed. */
  function HashedBytes(e: AuditEvent): Result<Bytes, CanonError> {
    Encode(BodyValue(HashedView(e)))
  }

  // ----- Structs encode, each in its own way -----

  lemma StructEncodes(names: seq<Str>, values: seq<Value>)
    requires |names| == |values| < 0x1_0000_0000_0000_0000 && NoRepeats(names)
    requires forall v | v in values :: IsCanonical(v) && WellSized(v)
    ensures WellSized(Struct(names, values))
    ensures Encode(Struct(names, values)).Ok?
  {
    var s := Struct(names, values);
    forall e | e in s.entries
      ensures !Refused(e.key) && !Refused(e.val)
    {
      CanonicalIffFixed(e.val);
      RefusedIffError(e.val);
    }
    RefusedIffError(s);
  }

  lemma StructDeterminesValues(names: seq<Str>, a: seq<Value>, b: seq<Value>)
    requires |names| == |a| == |b| && NoRepeats(names)
    requires forall v | v in a :: IsCanonical(v)
    requires forall v | v in b :: IsCanonical(v)
    requires Reordered(Struct(names, a), Struct(names, b))
    ensures a == b
  {
    hide Reordered, ReorderedEntry, IsCanonical;
    var s, t := Struct(names, a).entries, Struct(names, b).entries;
    var p := Matching(s, t);
    forall i | 0 <= i < |a|
      ensures a[i] == b[i]
    {
      assert ReorderedEntry(s[i], t[p[i]]);
      SameField(names, a, b, i, p[i]);
    }
  }

  lemma Matching(s: seq<Entry>, t: seq<Entry>) returns (p: seq<nat>)
    requires Reordered(Map(s), Map(t))
    ensures |s| == |t| == |p|
    ensures forall i :: 0 <= i < |s| ==> p[i] < |t| && ReorderedEntry(s[i], t[p[i]])
  {
    var q;
    p, q :| InversePermutations(p, q, |s|) && forall i :: 0 <= i < |s| ==> ReorderedEntry(s[i], t[p[i]]);
  }

  lemma SameField(names: seq<Str>, a: seq<Value>, b: seq<Value>, i: nat, j: nat)
    requires |names| == |a| == |b| && NoRepeats(names) && i < |a| && j < |a|
    requires IsCanonical(a[i]) && IsCanonical(b[j])
    requires ReorderedEntry(Entry(Text(names[i]), a[i]), Entry(Text(names[j]), b[j]))
    ensures i == j && a[i] == b[i]
  {
    ReorderedSameResult(a[i], b[j]);
    CanonicalIffFixed(a[i]);
    CanonicalIffFixed(b[j]);
  }

  /** Two structs of one type with one encoding have the same field values. */
  lemma StructInjective(names: seq<Str>, a: seq<Value>, b: seq<Value>)
    requires |names| == |a| == |b| < 0x1_0000_0000_0000_0000 && NoRepeats(names)
    requires forall v | v in a :: IsCanonical(v) && WellSized(v)
    requires forall v | v in b :: IsCanonical(v) && WellSized(v)
    requires Encode(Struct(names, a)) == Encode(Struct(names, b))
    ensures a == b
  {
    StructEncodes(names, a);
    StructEncodes(names, b);
    EncodingUnique(Struct(names, a), Struct(names, b));
    StructDeterminesValues(names, a, b);
  }

  /** A plain field value, or a list of texts. */
  predicate Flat(v: Value) {
    match v
    case Array(items) => |items| < 0x1_0000_0000_0000_0000 && forall x | x in items :: x.Text?
    case Map(_) => false
    case Tag(_, _) => false
    case Float(_) => false
    case _ => true
  }

  lemma FlatSound(v: Value)
    requires Flat(v)
    ensures IsCanonical(v) && WellSized(v)
  {
  }

  predicate AllFlat(vs: seq<Value>) {
    forall v | v in vs :: Flat(v)
  }

  lemma OriginValuesFlat(b: HashedBody)
    ensures AllFlat(OriginValues(b))
  {
  }

  lemma PinValuesFlat(b: HashedBody)
    ensures AllFlat(PinValues(b))
  {
    assert Flat(Array(Texts(b.riskFlags)));
  }

  lemma PayloadValuesFlat(b: HashedBody)
    ensures AllFlat(PayloadValues(b))
  {
  }

  lemma FieldValuesSound(b: HashedBody)
    ensures forall v | v in FieldValues(b) :: IsCanonical(v) && WellSized(v)
  {
    hide OriginValues, PinValues, PayloadValues, Flat, IsCanonical, WellSized;
    OriginValuesFlat(b);
    PinValuesFlat(b);
    PayloadValuesFlat(b);
    forall v | v in FieldValues(b)
      ensures IsCanonical(v) && WellSized(v)
    {
      FlatSound(v);
    }
  }

  /** Every event can be hashed: its body holds no float and no repeated key. */
  lemma BodyEncodes(e: AuditEvent)
    ensures HashedBytes(e).Ok?
  {
    var b := HashedView(e);
    FieldValuesSound(b);
    FieldNamesAscii();
    FieldNamesShort();
    FieldNamesDistinct();
    NamesKeepDistinct(FieldNames());
    StructEncodes(Names(FieldNames()), FieldValues(b));
  }

  lemma FieldValuesInjective(a: HashedBody, b: HashedBody)
    requires FieldValues(a) == FieldValues(b)
    ensures a == b
  {
    var s, t := FieldValues(a), FieldValues(b);
    assert s[..12] == OriginValues(a) && s[12..26] == PinValues(a) && s[26..] == PayloadValues(a);
    assert t[..12] == OriginValues(b) && t[12..26] == PinValues(b) && t[26..] == PayloadValues(b);
    OriginValuesInjective(a, b);
    PinValuesInjective(a, b);
    PayloadValuesInjective(a, b);
  }

  lemma OriginValuesInjective(a: HashedBody, b: HashedBody)
    requires OriginValues(a) == OriginValues(b)
    ensures
      && a.tenantId == b.tenantId && a.systemId == b.systemId && a.seqNo == b.seqNo && a.eventId == b.eventId
      && a.traceId == b.traceId && a.attemptSeq == b.attemptSeq && a.prevHash == b.prevHash
      && a.canonVersion == b.canonVersion && a.occurredAt == b.occurredAt && a.nodeId == b.nodeId
      && a.eventType == b.eventType && a.outcome == b.outcome
  {
    var s, t := OriginValues(a), OriginValues(b);
    assert forall i :: 0 <= i < 12 ==> s[i] == t[i];
    assert s[8] == Int(a.occurredAt) && t[8] == Int(b.occurredAt);
  }

  lemma PinValuesInjective(a: HashedBody, b: HashedBody)
    requires PinValues(a) == PinValues(b)
    ensures
      && a.configGeneration == b.configGeneration && a.configHash == b.configHash
      && a.systemVersion == b.systemVersion && a.ifuVersion == b.ifuVersion && a.modelId == b.modelId
      && a.modelVersion == b.modelVersion && a.promptId == b.promptId && a.promptVersion == b.promptVersion
      && a.policyId == b.policyId && a.policyVersion == b.policyVersion && a.gatewayVersion == b.gatewayVersion
      && a.riskClass == b.riskClass && a.resolvedStale == b.resolvedStale && a.riskFlags == b.riskFlags
  {
    var s, t := PinValues(a), PinValues(b);
    assert forall i :: 0 <= i < 14 ==> s[i] == t[i];
    assert s[13] == Array(Texts(a.riskFlags)) && t[13] == Array(Texts(b.riskFlags));
    assert forall i :: 0 <= i < |a.riskFlags| ==> Texts(a.riskFlags)[i] == Text(a.riskFlags[i]);
    assert a.riskFlags == b.riskFlags;
  }

  lemma PayloadValuesInjective(a: HashedBody, b: HashedBody)
    requires PayloadValues(a) == PayloadValues(b)
    ensures
      && a.requestDigest == b.requestDigest && a.responseDigest == b.responseDigest
      && a.payloadRef == b.payloadRef && a.subjectKeyId == b.subjectKeyId && a.provider == b.provider
      && a.httpStatus == b.httpStatus && a.latencyMs == b.latencyMs && a.ttftMs == b.ttftMs
      && a.tokensIn == b.tokensIn && a.tokensOut == b.tokensOut && a.errorCode == b.errorCode
  {
    var s, t := PayloadValues(a), PayloadValues(b);
    assert forall i :: 0 <= i < 11 ==> s[i] == t[i];
  }

  /** Events encode alike exactly if they are the same record. */
  lemma HashedBytesIff(d: AuditEvent, e: AuditEvent)
    ensures HashedBytes(d) == HashedBytes(e) <==> SameRecord(d, e)
  {
    hide HashedBytes, HashedView, SameRecord;
    HashedViewIff(d, e);
    SameViewSameBytes(d, e);
    if HashedBytes(d) == HashedBytes(e) {
      HashedBytesInjective(d, e);
    }
  }

  lemma SameViewSameBytes(d: AuditEvent, e: AuditEvent)
    ensures HashedView(d) == HashedView(e) ==> HashedBytes(d) == HashedBytes(e)
  {
    hide HashedView, BodyValue;
  }

  lemma HashedBytesInjective(d: AuditEvent, e: AuditEvent)
    requires HashedBytes(d) == HashedBytes(e)
    ensures HashedView(d) == HashedView(e)
  {
    var a, b := HashedView(d), HashedView(e);
    FieldValuesSound(a);
    FieldValuesSound(b);
    FieldNamesAscii();
    FieldNamesShort();
    FieldNamesDistinct();
    NamesKeepDistinct(FieldNames());
    StructInjective(Names(FieldNames()), FieldValues(a), FieldValues(b));
    FieldValuesInjective(a, b);
  }

  // ----- What is hashed, in the event's own fields -----

  /** The event with nothing in the fields that are not hashed, nor in the flags. */
  function Bare(e: AuditEvent): AuditEvent {
    e.(eventHash := GENESIS, ingestedAt := 0, emitted := e.emitted.(pins := e.emitted.pins.(systemId := [], riskFlags := [])))
  }

  /** The same in every field but the stored hash, the time of ingestion and the
      pins' own system id, and with the same flags in any order. */
  predicate SameRecord(d: AuditEvent, e: AuditEvent) {
    Bare(d) == Bare(e) && multiset(d.emitted.pins.riskFlags) == multiset(e.emitted.pins.riskFlags)
  }

  /** No flag comes before an earlier one. */
  ghost predicate FlagsInOrder(flags: seq<Str>) {
    forall i, j :: 0 <= i < j < |flags| ==> !LexLess(flags[j], flags[i])
  }

  lemma {:induction false} InsertFlagSorts(f: Str, sorted: seq<Str>)
    requires FlagsInOrder(sorted)
    ensures FlagsInOrder(InsertFlag(f, sorted)) && multiset(InsertFlag(f, sorted)) == multiset(sorted) + multiset{f}
    ensures forall x :: x in InsertFlag(f, sorted) <==> x == f || x in sorted
  {
    if sorted == [] || !LexLess(sorted[0], f) {
      assert [f] + sorted == InsertFlag(f, sorted);
      forall x | x in sorted
        ensures !LexLess(x, f)
      {
        var i :| 0 <= i < |sorted| && sorted[i] == x;
        NotBefore(x, sorted[0], f);
      }
    } else {
      var first, rest := sorted[0], sorted[1..];
      assert sorted == [first] + rest;
      InsertFlagSorts(f, rest);
      LexTotal(first, f);
      assert forall x | x in rest :: !LexLess(x, first);
    }
  }

  lemma NotBefore(a: Str, b: Str, c: Str)
    requires (a == b || !LexLess(a, b)) && !LexLess(b, c)
    ensures !LexLess(a, c)
  {
    LexTotal(a, b);
    LexTotal(b, c);
    if LexLess(a, c) && a != b && b != c {
      LexTransitive(b, a, c);
      LexTotal(b, c);
      LexTransitive(c, b, a);
      LexTotal(a, c);
    }
  }

  lemma {:induction false} SortFlagsSorts(flags: seq<Str>)
    ensures FlagsInOrder(SortFlags(flags)) && multiset(SortFlags(flags)) == multiset(flags)
  {
    if flags != [] {
      SortFlagsSorts(flags[1..]);
      InsertFlagSorts(flags[0], SortFlags(flags[1..]));
      assert flags == [flags[0]] + flags[1..];
    }
  }

  lemma FirstAgrees(a: seq<Str>, b: seq<Str>)
    requires FlagsInOrder(a) && FlagsInOrder(b) && multiset(a) == multiset(b) && a != [] && b != []
    ensures a[0] == b[0]
  {
    hide LexLess;
    assert a[0] in multiset(b) && b[0] in multiset(a);
    LexTotal(a[0], b[0]);
  }

  lemma WithoutFirst(a: seq<Str>)
    requires a != []
    ensures multiset(a[1..]) == multiset(a) - multiset{a[0]}
    ensures FlagsInOrder(a) ==> FlagsInOrder(a[1..])
  {
    assert a == [a[0]] + a[1..];
  }

  lemma {:induction false} OneOrder(a: seq<Str>, b: seq<Str>)
    requires FlagsInOrder(a) && FlagsInOrder(b) && multiset(a) == multiset(b)
    ensures a == b
  {
    hide FlagsInOrder;
    assert |a| == |multiset(a)| && |b| == |multiset(b)|;
    if a != [] {
      FirstAgrees(a, b);
      WithoutFirst(a);
      WithoutFirst(b);
      OneOrder(a[1..], b[1..]);
      assert a == [a[0]] + a[1..] && b == [b[0]] + b[1..];
    }
  }

  /** Flags are hashed in bytewise order, and sort alike exactly if each occurs as often
      in both. */
  lemma SortFlagsIff(a: seq<Str>, b: seq<Str>)
    ensures FlagsInOrder(SortFlags(a)) && multiset(SortFlags(a)) == multiset(a)
    ensures SortFlags(a) == SortFlags(b) <==> multiset(a) == multiset(b)
  {
    SortFlagsSorts(a);
    SortFlagsSorts(b);
    if multiset(a) == multiset(b) {
      OneOrder(SortFlags(a), SortFlags(b));
    }
  }

  /** What is hashed of two events is the same exactly if the events agree in every
      field but the three that are not hashed, flags counted in any order. */
  lemma HashedViewIff(d: AuditEvent, e: AuditEvent)
    ensures HashedView(d) == HashedView(e) <==> SameRecord(d, e)
  {
    hide SortFlags;
    SortFlagsIff(d.emitted.pins.riskFlags, e.emitted.pins.riskFlags);
  }
}
