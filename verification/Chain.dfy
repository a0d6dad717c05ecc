/**
 * The chain rule of ancre-chain: what an event hash is taken over, and what it
 * pins down.
 */
module Chain {
  import opened Wrappers
  import opened Hashing
  import opened Canon
  import opened Events

  const EVENT_TAG: Bytes := Ascii("ancre-event/1")

  /** The rule set this build implements. */
  const CANON_VERSION: Str := Ascii("ancre-canon/1")

  const U32_MAX: nat := 0xFFFF_FFFF

  /** Four bytes, least significant first. */
  function LittleEndian32(n: nat): (r: Bytes)
    requires n <= U32_MAX
    ensures |r| == 4
  {
    [(n % 256) as byte, (n / 0x100 % 256) as byte, (n / 0x1_0000 % 256) as byte, (n / 0x100_0000) as byte]
  }

  /** A field behind its length; a length past u32 saturates. */
  function Absorbed(field: Bytes): Bytes {
    LittleEndian32(if |field| <= U32_MAX then |field| else U32_MAX) + field
  }

  /** What the hasher has absorbed for an event with this encoded body. */
  function EventInput(e: AuditEvent, body: Bytes): Bytes {
    Absorbed(EVENT_TAG) + (Absorbed(e.canonVersion) + (Absorbed(e.prevHash) + Absorbed(body)))
  }

  function EventHash(H: HashFn, e: AuditEvent): Result<Hash32, CanonError> {
    match HashedBytes(e)
    case Err(x) => Err(x)
    case Ok(body) => Ok(H(EventInput(e, body)))
  }

  /** Stamp the event's own hash. */
  function Sealed(H: HashFn, e: AuditEvent): Result<AuditEvent, CanonError> {
    match EventHash(H, e)
    case Err(x) => Err(x)
    case Ok(h) => Ok(e.(eventHash := h))
  }

  /** The string hashed for `e`, if it can be encoded. */
  ghost function EventInputs(e: AuditEvent): set<Bytes> {
    match HashedBytes(e)
    case Err(_) => {}
    case Ok(body) => {EventInput(e, body)}
  }

  ghost function AllEventInputs(es: seq<AuditEvent>): set<Bytes> {
    set e, x | e in es && x in EventInputs(e) :: x
  }

  // ----- Length prefixes -----

  lemma LittleEndian32Injective(m: nat, n: nat)
    requires m <= U32_MAX && n <= U32_MAX && LittleEndian32(m) == LittleEndian32(n)
    ensures m == n
  {
    var a, b := LittleEndian32(m), LittleEndian32(n);
    assert a[0] == b[0] && a[1] == b[1] && a[2] == b[2] && a[3] == b[3];
    FourBytes(m);
    FourBytes(n);
  }

  lemma FourBytes(n: nat)
    requires n <= U32_MAX
    ensures n == n % 256 + 0x100 * (n / 0x100 % 256) + 0x1_0000 * (n / 0x1_0000 % 256) + 0x100_0000 * (n / 0x100_0000)
  {
  }

  /** A field can be told apart from whatever follows it. */
  ghost predicate Separates(field: Bytes) {
    forall field', rest, rest' ::
      Absorbed(field) + rest == Absorbed(field') + rest' ==> field == field' && rest == rest'
  }

  /** The prefix separates a field from the next exactly when its length is
      below the largest u32.  A longer field runs into the ones after it. */
  lemma SeparatesIffShort(field: Bytes)
    ensures Separates(field) <==> |field| < U32_MAX
  {
    if |field| < U32_MAX {
      forall field', rest, rest' | Absorbed(field) + rest == Absorbed(field') + rest'
        ensures field == field' && rest == rest'
      {
        ShortSeparates(field, field', rest, rest');
      }
    } else {
      var zero: Bytes := Absorbed([]);
      assert Absorbed(field) + (zero + []) == Absorbed(field + zero) + [];
      assert field != field + zero;
    }
  }

  lemma ShortSeparates(field: Bytes, field': Bytes, rest: Bytes, rest': Bytes)
    requires |field| < U32_MAX && Absorbed(field) + rest == Absorbed(field') + rest'
    ensures field == field' && rest == rest'
  {
    var a, b := Absorbed(field) + rest, Absorbed(field') + rest';
    var n, n' := |field|, if |field'| <= U32_MAX then |field'| else U32_MAX;
    assert a[..4] == LittleEndian32(n) && b[..4] == LittleEndian32(n');
    LittleEndian32Injective(n, n');
    assert a[4..4 + n] == field && b[4..4 + n] == field';
    assert a[4 + n..] == rest && b[4 + n..] == rest';
  }

  // ----- Reading the strings back -----

  /** The fields of a string of length-prefixed fields. */
  function Fields(s: Bytes): Option<seq<Bytes>> {
    if s == [] then Some([])
    else if |s| < 4 then None
    else
      var n := s[0] as nat + 0x100 * s[1] as nat + 0x1_0000 * s[2] as nat + 0x100_0000 * s[3] as nat;
      if 4 + n > |s| then None
      else
        match Fields(s[4 + n..])
        case None => None
        case Some(rest) => Some([s[4..4 + n]] + rest)
  }

  lemma FieldRead(field: Bytes, rest: Bytes)
    requires |field| <= 0xFFFF_FFFF
    ensures Fields(Absorbed(field) + rest) == match Fields(rest) case None => None case Some(fs) => Some([field] + fs)
  {
    var s, n := Absorbed(field) + rest, |field|;
    FourBytes(n);
    assert s[..4] == LittleEndian32(n);
    assert s[0] == s[..4][0] && s[1] == s[..4][1] && s[2] == s[..4][2] && s[3] == s[..4][3];
    assert s[4..4 + n] == field && s[4 + n..] == rest;
  }

  /** What is hashed for an event reads back as the tag, the rule set, the link and the
      encoded body, in this order. */
  lemma EventInputReads(e: AuditEvent, body: Bytes)
    requires |e.canonVersion| <= 0xFFFF_FFFF && |body| <= 0xFFFF_FFFF
    ensures Fields(EventInput(e, body)) == Some([Ascii("ancre-event/1"), e.canonVersion, e.prevHash, body])
  {
    hide Fields, Absorbed;
    var x, y, z := Absorbed(body), Absorbed(e.prevHash), Absorbed(e.canonVersion);
    assert x + [] == x;
    NothingRead();
    FieldRead(body, []);
    FieldRead(e.prevHash, x);
    FieldRead(e.canonVersion, y + x);
    FieldRead(EVENT_TAG, z + (y + x));
    assert [EVENT_TAG] + ([e.canonVersion] + ([e.prevHash] + ([body] + []))) == [EVENT_TAG, e.canonVersion, e.prevHash, body];
  }

  lemma NothingRead()
    ensures Fields([]) == Some([])
  {
  }

  // ----- What an event hash pins down -----

  lemma InputDeterminesParts(d: AuditEvent, e: AuditEvent, body: Bytes, body': Bytes)
    requires |d.canonVersion| < U32_MAX
    requires EventInput(d, body) == EventInput(e, body')
    ensures d.canonVersion == e.canonVersion && d.prevHash == e.prevHash && body == body'
  {
    hide LittleEndian32;
    var r, r' := Absorbed(d.prevHash) + Absorbed(body), Absorbed(e.prevHash) + Absorbed(body');
    ShortSeparates(EVENT_TAG, EVENT_TAG, Absorbed(d.canonVersion) + r, Absorbed(e.canonVersion) + r');
    ShortSeparates(d.canonVersion, e.canonVersion, r, r');
    ShortSeparates(d.prevHash, e.prevHash, Absorbed(body), Absorbed(body'));
    assert Absorbed(body)[4..] == body && Absorbed(body')[4..] == body';
  }

  /** Equal event hashes mean one record, or the two events' own hash inputs collide.
      Position and link are part of the record. */
  lemma EventHashBinds(H: HashFn, d: AuditEvent, e: AuditEvent)
    requires |d.canonVersion| < U32_MAX
    requires EventHash(H, d).Ok? && EventHash(H, d) == EventHash(H, e)
    ensures SameRecord(d, e) || CollisionIn(H, EventInputs(d) + EventInputs(e))
  {
    hide HashedView, SameRecord;
    var body, body' := HashedBytes(d).value, HashedBytes(e).value;
    var x, y := EventInput(d, body), EventInput(e, body');
    if x == y {
      InputDeterminesParts(d, e, body, body');
      HashedBytesIff(d, e);
    } else {
      assert x in EventInputs(d) + EventInputs(e) && y in EventInputs(d) + EventInputs(e);
    }
  }

  /** One record, one hash: the stored hash, the time of ingestion, the pins' own
      system id and the order of the flags change nothing. */
  lemma SameRecordSameHash(H: HashFn, d: AuditEvent, e: AuditEvent)
    requires SameRecord(d, e)
    ensures EventHash(H, d) == EventHash(H, e)
  {
    hide HashedBytes;
    HashedBytesIff(d, e);
  }

  /** Sealing never fails, whatever the event. */
  lemma SealTotal(H: HashFn, e: AuditEvent)
    ensures EventHash(H, e).Ok? && Sealed(H, e).Ok?
  {
    BodyEncodes(e);
  }

  /** Sealing changes nothing that is hashed, so a sealed event rehashes to the
      hash it carries. */
  lemma SealedRehashes(H: HashFn, e: AuditEvent)
    requires Sealed(H, e).Ok?
    ensures EventHash(H, Sealed(H, e).value) == Ok(Sealed(H, e).value.eventHash)
    ensures SameRecord(Sealed(H, e).value, e)
  {
    hide HashedBytes;
    HashedBytesIff(Sealed(H, e).value, e);
  }
}
