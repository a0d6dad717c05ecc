/**
 * Canonical CBOR, the encoding every hash in the system is taken over.
 *
 * Every value graph has at most one form that may be hashed.  `Canonicalize`
 * finds it or reports why there is none, `Write` lays it out as bytes, and
 * `Decode` takes only bytes that `Write` could have produced.  Map keys are ordered as
 * in section 4.2.3 of RFC 8949: shorter encoding first, then bytewise.
 */
module Canon {
  import opened Wrappers
  import opened Hashing

  type u64 = n: nat | n < 0x1_0000_0000_0000_0000

  const U64_MAX: nat := 0xFFFF_FFFF_FFFF_FFFF

  /** One more, in u64 arithmetic: it wraps. */
  function Bump(n: u64): u64 {
    if n == U64_MAX then 0 else n + 1
  }

  /** Text is held as its UTF-8 bytes.  A length is a machine word. */
  type Str = s: Bytes | |s| < 0x1_0000_0000_0000_0000 witness []

  datatype Value =
    | Unsigned(n: u64)
    | Negative(n: u64)  // stands for -1 - n
    | ByteString(bytes: Str)
    | Text(text: Str)
    | Array(items: seq<Value>)
    | Map(entries: seq<Entry>)
    | Tag(tag: u64, inner: Value)
    | Bool(b: bool)
    | Null
    | Float(bits: u64)

  datatype Entry = Entry(key: Value, val: Value)

  /** Array and map lengths are machine words too. */
  predicate WellSized(v: Value) {
    match v
    case Array(items) => |items| < 0x1_0000_0000_0000_0000 && forall x | x in items :: WellSized(x)
    case Map(entries) =>
      |entries| < 0x1_0000_0000_0000_0000
      && forall e | e in entries :: WellSized(e.key) && WellSized(e.val)
    case Tag(_, inner) => WellSized(inner)
    case _ => true
  }

  // ----- Bytes -----

  function BigEndian(n: nat, width: nat): (r: Bytes)
    ensures |r| == width
  {
    if width == 0 then [] else BigEndian(n / 256, width - 1) + [(n % 256) as byte]
  }

  /** The initial byte of an item and its argument, in the fewest bytes. */
  function Head(major: nat, n: nat): Bytes
    requires major < 8
  {
    if n < 24 then [(32 * major + n) as byte]
    else if n < 0x100 then [(32 * major + 24) as byte] + BigEndian(n, 1)
    else if n < 0x1_0000 then [(32 * major + 25) as byte] + BigEndian(n, 2)
    else if n < 0x1_0000_0000 then [(32 * major + 26) as byte] + BigEndian(n, 4)
    else [(32 * major + 27) as byte] + BigEndian(n, 8)
  }

  function Write(v: Value): Bytes {
    match v
    case Unsigned(n) => Head(0, n)
    case Negative(n) => Head(1, n)
    case ByteString(bytes) => Head(2, |bytes|) + bytes
    case Text(text) => Head(3, |text|) + text
    case Array(items) => Head(4, |items|) + WriteItems(items)
    case Map(entries) => Head(5, |entries|) + WriteEntries(entries)
    case Tag(tag, inner) => Head(6, tag) + Write(inner)
    case Bool(b) => Head(7, if b then 21 else 20)
    case Null => Head(7, 22)
    case Float(bits) => [0xFB] + BigEndian(bits, 8)
  }

  function WriteItems(items: seq<Value>): Bytes {
    if items == [] then [] else Write(items[0]) + WriteItems(items[1..])
  }

  function WriteEntries(entries: seq<Entry>): Bytes {
    if entries == [] then [] else WriteEntry(entries[0]) + WriteEntries(entries[1..])
  }

  function WriteEntry(e: Entry): Bytes {
    Write(e.key) + Write(e.val)
  }

  // ----- Key order -----

  predicate LexLess(a: Bytes, b: Bytes) {
    b != [] && (a == [] || a[0] < b[0] || (a[0] == b[0] && LexLess(a[1..], b[1..])))
  }

  /** Shorter first, then bytewise. */
  predicate Shortlex(a: Bytes, b: Bytes) {
    |a| < |b| || (|a| == |b| && LexLess(a, b))
  }

  predicate Before(a: Entry, b: Entry) {
    Shortlex(Write(a.key), Write(b.key))
  }

  predicate SameKey(a: Entry, b: Entry) {
    Write(a.key) == Write(b.key)
  }

  lemma {:induction false} LexTotal(a: Bytes, b: Bytes)
    ensures LexLess(a, b) || a == b || LexLess(b, a)
    ensures !(LexLess(a, b) && LexLess(b, a)) && !LexLess(a, a)
  {
    if a != [] {
      LexTotal(a[1..], a[1..]);
      if b != [] && a[0] == b[0] {
        LexTotal(a[1..], b[1..]);
        assert a == [a[0]] + a[1..] && b == [b[0]] + b[1..];
      }
    }
  }

  lemma {:induction false} LexTransitive(a: Bytes, b: Bytes, c: Bytes)
    requires LexLess(a, b) && LexLess(b, c)
    ensures LexLess(a, c)
  {
    if a != [] && a[0] == b[0] == c[0] {
      LexTransitive(a[1..], b[1..], c[1..]);
    }
  }

  lemma BeforeIsAnOrder(a: Entry, b: Entry, c: Entry)
    ensures Before(a, b) || SameKey(a, b) || Before(b, a)
    ensures !(Before(a, b) && Before(b, a)) && !(Before(a, b) && SameKey(a, b))
    ensures Before(a, b) && Before(b, c) ==> Before(a, c)
  {
    LexTotal(Write(a.key), Write(b.key));
    if Before(a, b) && Before(b, c) && |Write(a.key)| == |Write(b.key)| == |Write(c.key)| {
      LexTransitive(Write(a.key), Write(b.key), Write(c.key));
    }
  }

  // ----- Canonicalization -----

  datatype CanonError = FloatNotAllowed | DuplicateMapKey | Undecodable | NotCanonical

  /** Insert behind the entries that may not come after it: stable. */
  function Insert(e: Entry, sorted: seq<Entry>): seq<Entry> {
    if sorted == [] || !Before(sorted[0], e) then [e] + sorted
    else [sorted[0]] + Insert(e, sorted[1..])
  }

  function Sort(entries: seq<Entry>): seq<Entry> {
    if entries == [] then [] else Insert(entries[0], Sort(entries[1..]))
  }

  /** Two neighbours of a sorted list have the same key. */
  predicate Repeats(sorted: seq<Entry>) {
    exists i :: 0 <= i < |sorted| - 1 && SameKey(sorted[i], sorted[i + 1])
  }

  function Canonicalize(v: Value): Result<Value, CanonError> {
    match v
    case Float(_) => Err(FloatNotAllowed)
    case Map(entries) =>
      (match CanonicalEntries(entries)
       case Err(e) => Err(e)
       case Ok(out) =>
         var sorted := Sort(out);
         if Repeats(sorted) then Err(DuplicateMapKey) else Ok(Map(sorted)))
    case Array(items) =>
      (match CanonicalItems(items)
       case Err(e) => Err(e)
       case Ok(out) => Ok(Array(out)))
    case Tag(tag, inner) =>
      (match Canonicalize(inner)
       case Err(e) => Err(e)
       case Ok(c) => Ok(Tag(tag, c)))
    case _ => Ok(v)
  }

  function CanonicalItems(items: seq<Value>): (r: Result<seq<Value>, CanonError>)
    ensures r.Ok? <==> forall i :: 0 <= i < |items| ==> Canonicalize(items[i]).Ok?
    ensures r.Ok? ==> |r.value| == |items|
    ensures r.Ok? ==> forall i :: 0 <= i < |items| ==> Canonicalize(items[i]) == Ok(r.value[i])
  {
    if items == [] then Ok([])
    else
      match Canonicalize(items[0])
      case Err(e) => Err(e)
      case Ok(first) =>
        match CanonicalItems(items[1..])
        case Err(e) =>
          assert forall i :: 0 <= i < |items| - 1 ==> items[1..][i] == items[i + 1];
          Err(e)
        case Ok(rest) => Ok([first] + rest)
  }

  function CanonicalEntry(e: Entry): Result<Entry, CanonError> {
    match Canonicalize(e.key)
    case Err(x) => Err(x)
    case Ok(key) =>
      match Canonicalize(e.val)
      case Err(x) => Err(x)
      case Ok(val) => Ok(Entry(key, val))
  }

  function CanonicalEntries(entries: seq<Entry>): (r: Result<seq<Entry>, CanonError>)
    ensures r.Ok? <==> forall i :: 0 <= i < |entries| ==> CanonicalEntry(entries[i]).Ok?
    ensures r.Ok? ==> |r.value| == |entries|
    ensures r.Ok? ==> forall i :: 0 <= i < |entries| ==> CanonicalEntry(entries[i]) == Ok(r.value[i])
  {
    if entries == [] then Ok([])
    else
      match CanonicalEntry(entries[0])
      case Err(e) => Err(e)
      case Ok(first) =>
        match CanonicalEntries(entries[1..])
        case Err(e) =>
          assert forall i :: 0 <= i < |entries| - 1 ==> entries[1..][i] == entries[i + 1];
          Err(e)
        case Ok(rest) => Ok([first] + rest)
  }

  /** Encode a value graph. */
  function Encode(v: Value): Result<Bytes, CanonError> {
    match Canonicalize(v)
    case Err(e) => Err(e)
    case Ok(c) => Ok(Write(c))
  }

  /** The value graph some CBOR reader makes of canonical bytes; bytes it would not
      have written itself are refused. */
  function Accepted(read: Bytes -> Option<Value>, bytes: Bytes): Result<Value, CanonError> {
    match read(bytes)
    case None => Err(Undecodable)
    case Some(v) =>
      match Canonicalize(v)
      case Err(e) => Err(e)
      case Ok(c) => if Write(c) != bytes then Err(NotCanonical) else Ok(c)
  }

  /** Decode into a type: `into` is how the type is made from a value graph. */
  function Decode<T>(read: Bytes -> Option<Value>, into: Value -> Option<T>, bytes: Bytes): Result<T, CanonError> {
    match Accepted(read, bytes)
    case Err(e) => Err(e)
    case Ok(v) =>
      match into(v)
      case None => Err(Undecodable)
      case Some(t) => Ok(t)
  }
}
