/** What the canonical encoding promises. */
module CanonTheorems {
  import opened Wrappers
  import opened Hashing
  import opened Canon

  // ----- The writer is prefix-free -----

  function Pow256(width: nat): nat {
    if width == 0 then 1 else 256 * Pow256(width - 1)
  }

  lemma {:induction false} BigEndianInjective(m: nat, n: nat, width: nat)
    requires m < Pow256(width) && n < Pow256(width)
    requires BigEndian(m, width) == BigEndian(n, width)
    ensures m == n
  {
    if width > 0 {
      var a, b := BigEndian(m, width), BigEndian(n, width);
      assert a[..width - 1] == BigEndian(m / 256, width - 1);
      assert b[..width - 1] == BigEndian(n / 256, width - 1);
      assert a[width - 1] == (m % 256) as byte && b[width - 1] == (n % 256) as byte;
      BigEndianInjective(m / 256, n / 256, width - 1);
    }
  }

  /** The number of argument bytes that follow the initial byte. */
  function ArgWidth(n: nat): nat {
    if n < 24 then 0 else if n < 0x100 then 1 else if n < 0x1_0000 then 2
    else if n < 0x1_0000_0000 then 4 else 8
  }

  function Info(n: nat): nat {
    if n < 24 then n else if n < 0x100 then 24 else if n < 0x1_0000 then 25
    else if n < 0x1_0000_0000 then 26 else 27
  }

  lemma HeadShape(major: nat, n: nat)
    requires major < 8
    ensures Head(major, n) == [(32 * major + Info(n)) as byte] + (if n < 24 then [] else BigEndian(n, ArgWidth(n)))
    ensures |Head(major, n)| == 1 + ArgWidth(n)
  {
  }

  lemma HeadPrefixFree(major: nat, n: u64, x: Bytes, major': nat, n': u64, x': Bytes)
    requires major < 8 && major' < 8
    requires Head(major, n) + x == Head(major', n') + x'
    ensures major == major' && n == n' && x == x'
  {
    var a, b := Head(major, n), Head(major', n');
    HeadShape(major, n);
    HeadShape(major', n');
    assert a[0] == (a + x)[0] && b[0] == (b + x')[0];
    assert 32 * major + Info(n) == 32 * major' + Info(n');
    assert ArgWidth(n) == ArgWidth(n');
    assert (a + x)[..|a|] == a && (b + x')[..|b|] == b;
    assert (a + x)[|a|..] == x && (b + x')[|b|..] == x';
    if n >= 24 {
      assert a[1..] == BigEndian(n, ArgWidth(n)) && b[1..] == BigEndian(n', ArgWidth(n));
      assert Pow256(1) == 0x100 && Pow256(2) == 0x1_0000;
      assert Pow256(4) == 0x1_0000_0000 && Pow256(8) == 0x1_0000_0000_0000_0000;
      BigEndianInjective(n, n', ArgWidth(n));
    }
  }

  function Major(v: Value): nat
    ensures Major(v) < 8
  {
    match v
    case Unsigned(_) => 0 case Negative(_) => 1 case ByteString(_) => 2 case Text(_) => 3
    case Array(_) => 4 case Map(_) => 5 case Tag(_, _) => 6 case _ => 7
  }

  function Argument(v: Value): u64
    requires WellSized(v) && !v.Float?
  {
    match v
    case Unsigned(n) => n case Negative(n) => n
    case ByteString(b) => |b| case Text(t) => |t|
    case Array(items) => |items| case Map(entries) => |entries|
    case Tag(tag, _) => tag case Bool(b) => if b then 21 else 20 case Null => 22
  }

  function Content(v: Value): Bytes {
    match v
    case ByteString(b) => b case Text(t) => t
    case Array(items) => WriteItems(items) case Map(entries) => WriteEntries(entries)
    case Tag(_, inner) => Write(inner) case _ => []
  }

  lemma WriteShape(v: Value)
    requires WellSized(v) && !v.Float?
    ensures Write(v) == Head(Major(v), Argument(v)) + Content(v)
  {
  }

  lemma PeelHead(v: Value, w: Value, x: Bytes, y: Bytes)
    requires WellSized(v) && WellSized(w) && !v.Float? && !w.Float?
    requires Write(v) + x == Write(w) + y
    ensures Major(v) == Major(w) && Argument(v) == Argument(w)
    ensures Content(v) + x == Content(w) + y
  {
    hide Head;
    WriteShape(v);
    WriteShape(w);
    hide Write;
    var h, k := Head(Major(v), Argument(v)), Head(Major(w), Argument(w));
    assert Write(v) + x == h + (Content(v) + x);
    assert Write(w) + y == k + (Content(w) + y);
    HeadPrefixFree(Major(v), Argument(v), Content(v) + x, Major(w), Argument(w), Content(w) + y);
  }

  lemma FloatsApart(v: Value, w: Value, x: Bytes, y: Bytes)
    requires WellSized(v) && WellSized(w) && v.Float?
    requires Write(v) + x == Write(w) + y
    ensures v == w && x == y
  {
    var a := Write(v);
    assert (a + x)[0] == 0xFB && (Write(w) + y)[0] == Write(w)[0];
    if w.Float? {
      assert a[1..] == (a + x)[1..9] && Write(w)[1..] == (Write(w) + y)[1..9];
      assert Pow256(8) == 0x1_0000_0000_0000_0000;
      assert a[1..] == BigEndian(v.bits, 8) && Write(w)[1..] == BigEndian(w.bits, 8);
      BigEndianInjective(v.bits, w.bits, 8);
      assert (a + x)[9..] == x && (Write(w) + y)[9..] == y;
    } else {
      WriteShape(w);
      HeadShape(Major(w), Argument(w));
      assert false;
    }
  }

  /** Two encodings that begin the same byte string are the same encoding, of
      the same value. */
  lemma {:induction false} WritePrefixFree(v: Value, w: Value, x: Bytes, y: Bytes)
    requires WellSized(v) && WellSized(w)
    requires Write(v) + x == Write(w) + y
    ensures v == w && x == y
    decreases v
  {
    if v.Float? {
      FloatsApart(v, w, x, y);
    } else if w.Float? {
      FloatsApart(w, v, y, x);
    } else {
      PeelHead(v, w, x, y);
      match v {
        case ByteString(b) => TakeDrop(b, x, w.bytes, y);
        case Text(t) => TakeDrop(t, x, w.text, y);
        case Array(items) => ItemsPrefixFree(items, w.items, x, y);
        case Map(entries) => EntriesPrefixFree(entries, w.entries, x, y);
        case Tag(_, inner) => WritePrefixFree(inner, w.inner, x, y);
        case _ =>
          assert Content(v) == [] && Content(w) == [];
          assert [] + x == x && [] + y == y;
      }
    }
  }

  lemma TakeDrop(a: Bytes, x: Bytes, b: Bytes, y: Bytes)
    requires |a| == |b| && a + x == b + y
    ensures a == b && x == y
  {
    assert (a + x)[..|a|] == a && (b + y)[..|a|] == b;
    assert (a + x)[|a|..] == x && (b + y)[|a|..] == y;
  }

  lemma {:induction false} ItemsPrefixFree(a: seq<Value>, b: seq<Value>, x: Bytes, y: Bytes)
    requires |a| == |b| && (forall v | v in a :: WellSized(v)) && (forall v | v in b :: WellSized(v))
    requires WriteItems(a) + x == WriteItems(b) + y
    ensures a == b && x == y
    decreases a
  {
    if a == [] {
      assert [] + x == x && [] + y == y;
    } else {
      assert WriteItems(a) + x == Write(a[0]) + (WriteItems(a[1..]) + x);
      assert WriteItems(b) + y == Write(b[0]) + (WriteItems(b[1..]) + y);
      WritePrefixFree(a[0], b[0], WriteItems(a[1..]) + x, WriteItems(b[1..]) + y);
      ItemsPrefixFree(a[1..], b[1..], x, y);
      assert a == [a[0]] + a[1..] && b == [b[0]] + b[1..];
    }
  }

  lemma {:induction false} EntriesPrefixFree(a: seq<Entry>, b: seq<Entry>, x: Bytes, y: Bytes)
    requires |a| == |b|
    requires forall e | e in a :: WellSized(e.key) && WellSized(e.val)
    requires forall e | e in b :: WellSized(e.key) && WellSized(e.val)
    requires WriteEntries(a) + x == WriteEntries(b) + y
    ensures a == b && x == y
    decreases a
  {
    if a == [] {
      assert [] + x == x && [] + y == y;
    } else {
      assert WriteEntries(a) + x == WriteEntry(a[0]) + (WriteEntries(a[1..]) + x);
      assert WriteEntries(b) + y == WriteEntry(b[0]) + (WriteEntries(b[1..]) + y);
      EntryPrefixFree(a[0], b[0], WriteEntries(a[1..]) + x, WriteEntries(b[1..]) + y);
      EntriesPrefixFree(a[1..], b[1..], x, y);
      assert a == [a[0]] + a[1..] && b == [b[0]] + b[1..];
    }
  }

  lemma EntryPrefixFree(a: Entry, b: Entry, x: Bytes, y: Bytes)
    requires WellSized(a.key) && WellSized(a.val) && WellSized(b.key) && WellSized(b.val)
    requires WriteEntry(a) + x == WriteEntry(b) + y
    ensures a == b && x == y
    decreases a
  {
    assert WriteEntry(a) + x == Write(a.key) + (Write(a.val) + x);
    assert WriteEntry(b) + y == Write(b.key) + (Write(b.val) + y);
    WritePrefixFree(a.key, b.key, Write(a.val) + x, Write(b.val) + y);
    WritePrefixFree(a.val, b.val, x, y);
  }

  /** One byte string per value. */
  lemma WriteInjective(v: Value, w: Value)
    requires WellSized(v) && WellSized(w) && Write(v) == Write(w)
    ensures v == w
  {
    WritePrefixFree(v, w, [], []);
  }

  // ----- Sorting -----

  ghost predicate Ascending(s: seq<Entry>) {
    forall i, j :: 0 <= i < j < |s| ==> Before(s[i], s[j])
  }

  ghost predicate Sorted(s: seq<Entry>) {
    forall i, j :: 0 <= i < j < |s| ==> !Before(s[j], s[i])
  }

  ghost predicate DistinctKeys(s: seq<Entry>) {
    forall i, j :: 0 <= i < j < |s| ==> !SameKey(s[i], s[j])
  }

  lemma {:induction false} InsertSorts(e: Entry, t: seq<Entry>)
    requires Sorted(t)
    ensures Sorted(Insert(e, t))
    ensures forall x :: x in Insert(e, t) <==> x == e || x in t
    ensures |Insert(e, t)| == |t| + 1
    ensures DistinctKeys(Insert(e, t)) <==> DistinctKeys(t) && forall x | x in t :: !SameKey(e, x)
  {
    if t == [] || !Before(t[0], e) {
      InsertFirst(e, t);
    } else {
      hide Write, LexLess, Shortlex, Before, SameKey, DistinctKeys, Sorted;
      var rest := Insert(e, t[1..]);
      assert t == [t[0]] + t[1..] && Insert(e, t) == [t[0]] + rest;
      SortedCons(t[0], t[1..]);
      InsertSorts(e, t[1..]);
      BeforeIsAnOrder(t[0], e, e);
      KeySymmetric(t[0], e);
      SortedCons(t[0], rest);
      DistinctCons(t[0], t[1..]);
      DistinctCons(t[0], rest);
    }
  }

  lemma KeySymmetric(a: Entry, b: Entry)
    ensures SameKey(a, b) <==> SameKey(b, a)
  {
  }

  lemma SortedCons(e: Entry, t: seq<Entry>)
    ensures Sorted([e] + t) <==> Sorted(t) && forall x | x in t :: !Before(x, e)
  {
    hide Write, LexLess, Shortlex, Before;
    var s := [e] + t;
    assert forall i :: 0 <= i < |t| ==> s[i + 1] == t[i];
    if Sorted(s) {
      forall i, j | 0 <= i < j < |t|
        ensures !Before(t[j], t[i])
      {
        assert !Before(s[j + 1], s[i + 1]);
      }
      forall x | x in t
        ensures !Before(x, e)
      {
        var i :| 0 <= i < |t| && t[i] == x;
        assert !Before(s[i + 1], s[0]);
      }
    }
  }

  lemma InsertFirst(e: Entry, t: seq<Entry>)
    requires Sorted(t) && (t == [] || !Before(t[0], e))
    ensures Insert(e, t) == [e] + t && Sorted([e] + t)
    ensures DistinctKeys([e] + t) <==> DistinctKeys(t) && forall x | x in t :: !SameKey(e, x)
  {
    hide Write, LexLess, Shortlex;
    forall i | 0 <= i < |t|
      ensures !Before(t[i], e)
    {
      BeforeIsAnOrder(t[0], t[i], e);
      BeforeIsAnOrder(t[i], t[0], e);
    }
    hide Before;
    SortedCons(e, t);
    DistinctCons(e, t);
  }

  lemma DistinctCons(e: Entry, t: seq<Entry>)
    ensures DistinctKeys([e] + t) <==> DistinctKeys(t) && forall x | x in t :: !SameKey(e, x)
  {
    hide Write, SameKey;
    var s := [e] + t;
    assert forall i :: 0 <= i < |t| ==> s[i + 1] == t[i];
    if DistinctKeys(s) {
      forall i, j | 0 <= i < j < |t|
        ensures !SameKey(t[i], t[j])
      {
        assert !SameKey(s[i + 1], s[j + 1]);
      }
      forall x | x in t
        ensures !SameKey(e, x)
      {
        var i :| 0 <= i < |t| && t[i] == x;
        assert !SameKey(s[0], s[i + 1]);
      }
    }
  }

  /** Sorting reorders, and finds a repeat among the keys if there is one. */
  lemma {:induction false} SortReorders(s: seq<Entry>)
    ensures Sorted(Sort(s)) && |Sort(s)| == |s|
    ensures forall x :: x in Sort(s) <==> x in s
    ensures DistinctKeys(Sort(s)) <==> DistinctKeys(s)
  {
    if s != [] {
      SortReorders(s[1..]);
      InsertSorts(s[0], Sort(s[1..]));
      assert s == [s[0]] + s[1..];
      DistinctCons(s[0], s[1..]);
    }
  }

  lemma NeighboursTellRepeats(s: seq<Entry>)
    requires Sorted(s)
    ensures Repeats(s) <==> !DistinctKeys(s)
    ensures !Repeats(s) ==> Ascending(s)
  {
    if !Repeats(s) {
      forall i, j | 0 <= i < j < |s|
        ensures Before(s[i], s[j])
      {
        NoRepeatsAscends(s, i, j);
      }
      forall i, j | 0 <= i < j < |s|
        ensures !SameKey(s[i], s[j])
      {
        BeforeIsAnOrder(s[i], s[j], s[j]);
      }
    }
  }

  lemma {:induction false} NoRepeatsAscends(s: seq<Entry>, i: nat, j: nat)
    requires Sorted(s) && !Repeats(s) && i < j < |s|
    ensures Before(s[i], s[j])
    decreases j
  {
    BeforeIsAnOrder(s[j - 1], s[j], s[j]);
    if i < j - 1 {
      NoRepeatsAscends(s, i, j - 1);
      BeforeIsAnOrder(s[i], s[j - 1], s[j]);
    }
  }

  lemma {:induction false} AscendingUnique(a: seq<Entry>, b: seq<Entry>)
    requires |a| == |b| && Ascending(a) && Ascending(b) && forall x :: x in a <==> x in b
    ensures a == b
  {
    if a != [] {
      assert a[0] in b && b[0] in a;
      BeforeIsAnOrder(a[0], b[0], b[0]);
      assert a[0] == b[0];
      assert a == [a[0]] + a[1..] && b == [b[0]] + b[1..];
      BeforeIsAnOrder(a[0], a[0], a[0]);
      forall x
        ensures x in a[1..] <==> x in b[1..]
      {
        assert x in a <==> x == a[0] || x in a[1..];
        assert x in b <==> x == b[0] || x in b[1..];
        assert a[0] !in a[1..] && b[0] !in b[1..];
      }
      AscendingUnique(a[1..], b[1..]);
    }
  }

  // ----- Canonical values -----

  /** No float, and strictly increasing map keys, at every depth. */
  ghost predicate IsCanonical(v: Value) {
    match v
    case Float(_) => false
    case Array(items) => forall x | x in items :: IsCanonical(x)
    case Map(entries) => Ascending(entries) && forall e | e in entries :: IsCanonical(e.key) && IsCanonical(e.val)
    case Tag(_, inner) => IsCanonical(inner)
    case _ => true
  }

  lemma {:induction false} ResultIsCanonical(v: Value)
    requires Canonicalize(v).Ok?
    ensures IsCanonical(Canonicalize(v).value)
    ensures WellSized(v) ==> WellSized(Canonicalize(v).value)
  {
    match v {
      case Array(items) =>
        var out := CanonicalItems(items).value;
        forall i | 0 <= i < |out|
          ensures IsCanonical(out[i]) && (WellSized(v) ==> WellSized(out[i]))
        {
          assert items[i] in items;
          ResultIsCanonical(items[i]);
        }
      case Map(entries) =>
        var out := CanonicalEntries(entries).value;
        forall i | 0 <= i < |out|
          ensures IsCanonical(out[i].key) && IsCanonical(out[i].val)
          ensures WellSized(v) ==> WellSized(out[i].key) && WellSized(out[i].val)
        {
          assert entries[i] in entries;
          assert CanonicalEntry(entries[i]) == Ok(out[i]);
          ResultIsCanonical(entries[i].key);
          ResultIsCanonical(entries[i].val);
        }
        SortReorders(out);
        NeighboursTellRepeats(Sort(out));
      case Tag(_, inner) => ResultIsCanonical(inner);
      case _ =>
    }
  }

  lemma {:induction false} CanonicalIsFixed(c: Value)
    requires IsCanonical(c)
    ensures Canonicalize(c) == Ok(c)
  {
    match c {
      case Array(items) =>
        forall i | 0 <= i < |items|
          ensures Canonicalize(items[i]) == Ok(items[i])
        {
          assert items[i] in items;
          CanonicalIsFixed(items[i]);
        }
        assert CanonicalItems(items).value == items;
      case Map(entries) =>
        forall i | 0 <= i < |entries|
          ensures CanonicalEntry(entries[i]) == Ok(entries[i])
        {
          assert entries[i] in entries;
          CanonicalIsFixed(entries[i].key);
          CanonicalIsFixed(entries[i].val);
        }
        assert CanonicalEntries(entries).value == entries;
        AscendingSorts(entries);
      case Tag(_, inner) => CanonicalIsFixed(inner);
      case _ =>
    }
  }

  lemma AscendingSorts(s: seq<Entry>)
    requires Ascending(s)
    ensures Sort(s) == s && !Repeats(s)
  {
    SortReorders(s);
    forall i, j | 0 <= i < j < |s|
      ensures !SameKey(s[i], s[j]) && !Before(s[j], s[i])
    {
      BeforeIsAnOrder(s[i], s[j], s[j]);
    }
    NeighboursTellRepeats(s);
    NeighboursTellRepeats(Sort(s));
    AscendingUnique(Sort(s), s);
  }

  /** The values canonicalization leaves alone are exactly its results. */
  lemma CanonicalIffFixed(v: Value)
    ensures IsCanonical(v) <==> Canonicalize(v) == Ok(v)
  {
    if IsCanonical(v) {
      CanonicalIsFixed(v);
    } else if Canonicalize(v) == Ok(v) {
      ResultIsCanonical(v);
    }
  }

  /** Canonicalizing again changes nothing. */
  lemma CanonicalizeIdempotent(v: Value)
    requires Canonicalize(v).Ok?
    ensures Canonicalize(Canonicalize(v).value) == Canonicalize(v)
  {
    ResultIsCanonical(v);
    CanonicalIsFixed(Canonicalize(v).value);
  }

  // ----- When it refuses -----

  /** A float somewhere, or a map somewhere with two keys of one canonical form. */
  ghost predicate Refused(v: Value) {
    match v
    case Float(_) => true
    case Array(items) => exists x | x in items :: Refused(x)
    case Map(entries) =>
      || (exists e | e in entries :: Refused(e.key) || Refused(e.val))
      || (exists i, j :: 0 <= i < j < |entries| && Canonicalize(entries[i].key).Ok?
                         && Canonicalize(entries[i].key) == Canonicalize(entries[j].key))
    case Tag(_, inner) => Refused(inner)
    case _ => false
  }

  lemma {:induction false} RefusedIffError(v: Value)
    requires WellSized(v)
    ensures Canonicalize(v).Err? <==> Refused(v)
  {
    match v {
      case Array(items) =>
        forall x | x in items
          ensures Canonicalize(x).Err? <==> Refused(x)
        {
          RefusedIffError(x);
        }
      case Map(entries) =>
        forall e | e in entries
          ensures CanonicalEntry(e).Err? <==> Refused(e.key) || Refused(e.val)
        {
          RefusedIffError(e.key);
          RefusedIffError(e.val);
        }
        if CanonicalEntries(entries).Ok? {
          DuplicateIffError(entries);
        }
      case Tag(_, inner) => RefusedIffError(inner);
      case _ =>
    }
  }

  lemma DuplicateIffError(entries: seq<Entry>)
    requires WellSized(Map(entries)) && CanonicalEntries(entries).Ok?
    ensures Canonicalize(Map(entries)).Err? <==>
            exists i, j :: 0 <= i < j < |entries| && Canonicalize(entries[i].key).Ok?
                           && Canonicalize(entries[i].key) == Canonicalize(entries[j].key)
  {
    hide Write, Before, Sort, Repeats;
    var out := CanonicalEntries(entries).value;
    SortReorders(out);
    NeighboursTellRepeats(Sort(out));
    forall i, j | 0 <= i < j < |entries|
      ensures SameKey(out[i], out[j]) <==> Canonicalize(entries[i].key) == Canonicalize(entries[j].key)
      ensures Canonicalize(entries[i].key).Ok?
    {
      KeysAgree(entries, out, i, j);
    }
  }

  lemma KeysAgree(entries: seq<Entry>, out: seq<Entry>, i: nat, j: nat)
    requires WellSized(Map(entries)) && CanonicalEntries(entries) == Ok(out)
    requires i < |entries| && j < |entries|
    ensures Canonicalize(entries[i].key) == Ok(out[i].key)
    ensures SameKey(out[i], out[j]) <==> Canonicalize(entries[i].key) == Canonicalize(entries[j].key)
  {
    assert CanonicalEntry(entries[i]) == Ok(out[i]) && CanonicalEntry(entries[j]) == Ok(out[j]);
    assert entries[i] in entries && entries[j] in entries;
    ResultIsCanonical(entries[i].key);
    ResultIsCanonical(entries[j].key);
    if SameKey(out[i], out[j]) {
      WriteInjective(out[i].key, out[j].key);
    }
  }

  // ----- One encoding for each value, whatever the order of its maps -----

  ghost predicate InversePermutations(p: seq<nat>, q: seq<nat>, n: nat) {
    && |p| == n && |q| == n
    && (forall i :: 0 <= i < n ==> p[i] < n && q[p[i]] == i)
    && (forall j :: 0 <= j < n ==> q[j] < n && p[q[j]] == j)
  }

  /** The same value, but for the order of map entries at any depth. */
  ghost predicate Reordered(v: Value, w: Value) {
    match v
    case Array(items) =>
      w.Array? && |w.items| == |items| && forall i :: 0 <= i < |items| ==> Reordered(items[i], w.items[i])
    case Map(entries) =>
      w.Map? && |w.entries| == |entries| &&
      exists p, q ::
        InversePermutations(p, q, |entries|) &&
        forall i :: 0 <= i < |entries| ==> ReorderedEntry(entries[i], w.entries[p[i]])
    case Tag(tag, inner) => w.Tag? && w.tag == tag && Reordered(inner, w.inner)
    case _ => v == w
  }

  ghost predicate ReorderedEntry(a: Entry, b: Entry) {
    Reordered(a.key, b.key) && Reordered(a.val, b.val)
  }

  /** Reordering map entries changes neither whether a value is accepted nor
      what it becomes. */
  lemma {:induction false} ReorderedSameResult(v: Value, w: Value)
    requires Reordered(v, w)
    ensures Canonicalize(v).Ok? <==> Canonicalize(w).Ok?
    ensures Canonicalize(v).Ok? ==> Canonicalize(v) == Canonicalize(w)
    decreases v
  {
    match v {
      case Array(items) =>
        forall i | 0 <= i < |items|
          ensures Canonicalize(items[i]).Ok? <==> Canonicalize(w.items[i]).Ok?
          ensures Canonicalize(items[i]).Ok? ==> Canonicalize(items[i]) == Canonicalize(w.items[i])
        {
          ReorderedSameResult(items[i], w.items[i]);
        }
        if Canonicalize(v).Ok? {
          assert CanonicalItems(items).value == CanonicalItems(w.items).value;
        }
      case Map(entries) =>
        var p, q :| InversePermutations(p, q, |entries|) &&
                    forall i :: 0 <= i < |entries| ==> ReorderedEntry(entries[i], w.entries[p[i]]);
        forall i | 0 <= i < |entries|
          ensures CanonicalEntry(entries[i]).Ok? <==> CanonicalEntry(w.entries[p[i]]).Ok?
          ensures CanonicalEntry(entries[i]).Ok? ==> CanonicalEntry(entries[i]) == CanonicalEntry(w.entries[p[i]])
        {
          assert ReorderedEntry(entries[i], w.entries[p[i]]);
          ReorderedSameResult(entries[i].key, w.entries[p[i]].key);
          ReorderedSameResult(entries[i].val, w.entries[p[i]].val);
        }
        PermutedSameResult(entries, w.entries, p, q);
      case Tag(_, inner) => ReorderedSameResult(inner, w.inner);
      case _ =>
    }
  }

  lemma PermutedSameResult(a: seq<Entry>, b: seq<Entry>, p: seq<nat>, q: seq<nat>)
    requires |a| == |b| && InversePermutations(p, q, |a|)
    requires forall i :: 0 <= i < |a| ==> (CanonicalEntry(a[i]).Ok? <==> CanonicalEntry(b[p[i]]).Ok?)
    requires forall i :: 0 <= i < |a| ==> CanonicalEntry(a[i]).Ok? ==> CanonicalEntry(a[i]) == CanonicalEntry(b[p[i]])
    ensures Canonicalize(Map(a)).Ok? <==> Canonicalize(Map(b)).Ok?
    ensures Canonicalize(Map(a)).Ok? ==> Canonicalize(Map(a)) == Canonicalize(Map(b))
  {
    hide Write;
    assert forall j :: 0 <= j < |b| ==> p[q[j]] == j && CanonicalEntry(b[j]).Ok? == CanonicalEntry(a[q[j]]).Ok?;
    if CanonicalEntries(a).Ok? {
      var out, out' := CanonicalEntries(a).value, CanonicalEntries(b).value;
      assert forall i :: 0 <= i < |a| ==> out[i] == out'[p[i]] by {
        forall i | 0 <= i < |a|
          ensures out[i] == out'[p[i]]
        {
          assert CanonicalEntry(a[i]) == Ok(out[i]) && CanonicalEntry(b[p[i]]) == Ok(out'[p[i]]);
        }
      }
      PermutedSorts(out, out', p, q);
    }
  }

  lemma PermutedSorts(a: seq<Entry>, b: seq<Entry>, p: seq<nat>, q: seq<nat>)
    requires |a| == |b| && InversePermutations(p, q, |a|)
    requires forall i :: 0 <= i < |a| ==> a[i] == b[p[i]]
    ensures Repeats(Sort(a)) <==> Repeats(Sort(b))
    ensures !Repeats(Sort(a)) ==> Sort(a) == Sort(b)
  {
    hide Write, LexLess, Shortlex, Sort, Before, Repeats, Sorted, SameKey, DistinctKeys, Ascending;
    SortReorders(a);
    SortReorders(b);
    NeighboursTellRepeats(Sort(a));
    NeighboursTellRepeats(Sort(b));
    forall j | 0 <= j < |b|
      ensures b[j] == a[q[j]]
    {
      assert p[q[j]] == j;
    }
    PermutedKeys(a, b, p, q);
    PermutedKeys(b, a, q, p);
    if DistinctKeys(a) {
      AscendingUnique(Sort(a), Sort(b));
    }
  }

  lemma PermutedKeys(a: seq<Entry>, b: seq<Entry>, p: seq<nat>, q: seq<nat>)
    requires |a| == |b| && InversePermutations(p, q, |a|)
    requires forall j :: 0 <= j < |b| ==> b[j] == a[q[j]]
    ensures DistinctKeys(a) ==> DistinctKeys(b)
    ensures forall x :: x in b ==> x in a
  {
    hide Write;
    forall i, j | 0 <= i < j < |b| && DistinctKeys(a)
      ensures !SameKey(b[i], b[j])
    {
      assert p[q[i]] == i && p[q[j]] == j;
      assert q[i] != q[j];
      assert if q[i] < q[j] then !SameKey(a[q[i]], a[q[j]]) else !SameKey(a[q[j]], a[q[i]]);
    }
  }

  /** Values with one canonical form differ only in the order of map entries. */
  lemma {:induction false} SameResultReordered(v: Value, w: Value)
    requires Canonicalize(v).Ok? && Canonicalize(v) == Canonicalize(w)
    ensures Reordered(v, w)
    decreases v
  {
    match v {
      case Array(items) =>
        var out := CanonicalItems(items).value;
        assert out == CanonicalItems(w.items).value;
        forall i | 0 <= i < |items|
          ensures Reordered(items[i], w.items[i])
        {
          assert Canonicalize(items[i]) == Ok(out[i]) && Canonicalize(w.items[i]) == Ok(out[i]);
          SameResultReordered(items[i], w.items[i]);
        }
      case Map(entries) => EntriesReordered(entries, w.entries);
      case Tag(_, inner) => SameResultReordered(inner, w.inner);
      case _ =>
    }
  }

  lemma {:induction false} EntryReordered(a: Entry, b: Entry)
    requires CanonicalEntry(a).Ok? && CanonicalEntry(a) == CanonicalEntry(b)
    ensures ReorderedEntry(a, b)
    decreases a
  {
    SameResultReordered(a.key, b.key);
    SameResultReordered(a.val, b.val);
  }

  lemma {:induction false} EntriesReordered(a: seq<Entry>, b: seq<Entry>)
    requires Canonicalize(Map(a)).Ok? && Canonicalize(Map(a)) == Canonicalize(Map(b))
    ensures Reordered(Map(a), Map(b))
    decreases a
  {
    hide Write, Sort, Repeats;
    var out, out' := CanonicalEntries(a).value, CanonicalEntries(b).value;
    var p, q := MatchUp(out, out');
    forall i | 0 <= i < |a|
      ensures ReorderedEntry(a[i], b[p[i]])
    {
      assert CanonicalEntry(a[i]) == Ok(out[i]) && CanonicalEntry(b[p[i]]) == Ok(out'[p[i]]);
      EntryReordered(a[i], b[p[i]]);
    }
  }

  /** Two lists with the same strictly sorted form are permutations of each other. */
  lemma MatchUp(a: seq<Entry>, b: seq<Entry>) returns (p: seq<nat>, q: seq<nat>)
    requires Sort(a) == Sort(b) && !Repeats(Sort(a))
    ensures |a| == |b| && InversePermutations(p, q, |a|)
    ensures forall i :: 0 <= i < |a| ==> a[i] == b[p[i]]
  {
    SortReorders(a);
    SortReorders(b);
    NeighboursTellRepeats(Sort(a));
    p := Locate(a, b);
    q := Locate(b, a);
    forall i | 0 <= i < |a|
      ensures q[p[i]] == i && p[q[i]] == i
    {
      assert a[q[p[i]]] == b[p[i]] == a[i];
      assert b[p[q[i]]] == a[q[i]] == b[i];
      SamePlace(a, q[p[i]], i);
      SamePlace(b, p[q[i]], i);
    }
  }

  lemma SamePlace(s: seq<Entry>, i: nat, j: nat)
    requires DistinctKeys(s) && i < |s| && j < |s| && s[i] == s[j]
    ensures i == j
  {
    assert SameKey(s[i], s[j]);
  }

  lemma {:induction false} Locate(a: seq<Entry>, b: seq<Entry>) returns (p: seq<nat>)
    requires forall x | x in a :: x in b
    ensures |p| == |a| && forall i :: 0 <= i < |a| ==> p[i] < |b| && a[i] == b[p[i]]
  {
    if a == [] {
      p := [];
    } else {
      var rest := Locate(a[1..], b);
      assert a[0] in b;
      var j :| 0 <= j < |b| && b[j] == a[0];
      p := [j] + rest;
    }
  }

  /** The encoding identifies a value up to the order of its map entries. */
  lemma EncodingUnique(v: Value, w: Value)
    requires WellSized(v) && WellSized(w) && Encode(v).Ok?
    ensures Encode(v) == Encode(w) <==> Reordered(v, w)
  {
    if Encode(v) == Encode(w) {
      ResultIsCanonical(v);
      ResultIsCanonical(w);
      WriteInjective(Canonicalize(v).value, Canonicalize(w).value);
      SameResultReordered(v, w);
    }
    if Reordered(v, w) {
      ReorderedSameResult(v, w);
    }
  }

  // ----- The order of keys, byte by byte -----

  /** The first byte in which the two differ is smaller in `a`. */
  ghost predicate SmallerAt(a: Bytes, b: Bytes, k: nat) {
    k < |a| && k < |b| && a[..k] == b[..k] && a[k] < b[k]
  }

  /** Bytewise order: a proper beginning comes first, else the first differing byte tells. */
  lemma {:induction false} LexLessIff(a: Bytes, b: Bytes)
    ensures LexLess(a, b) <==> a < b || exists k: nat :: SmallerAt(a, b, k)
  {
    if a != [] && b != [] {
      LexLessIff(a[1..], b[1..]);
      if k: nat :| SmallerAt(a, b, k) {
        if k > 0 {
          assert a[..k][0] == a[0] && b[..k][0] == b[0];
          assert a[..k][1..] == a[1..][..k - 1] && b[..k][1..] == b[1..][..k - 1];
          assert SmallerAt(a[1..], b[1..], k - 1);
        }
      }
      if a[0] < b[0] {
        assert SmallerAt(a, b, 0);
      } else if a[0] == b[0] && LexLess(a[1..], b[1..]) && !(a < b) {
        assert !(a[1..] < b[1..]) by {
          assert a == [a[0]] + a[1..] && b == [b[0]] + b[1..];
        }
        var k: nat :| SmallerAt(a[1..], b[1..], k);
        assert a[..k + 1] == [a[0]] + a[1..][..k] && b[..k + 1] == [b[0]] + b[1..][..k];
        assert SmallerAt(a, b, k + 1);
      }
    }
  }

  /** In a canonical map a shorter written key comes before every longer one, and of
      two equally long keys the one with the smaller first differing byte. */
  lemma ShorterKeysFirst(entries: seq<Entry>, i: nat, j: nat)
    requires IsCanonical(Map(entries)) && i < j < |entries|
    ensures
      var a, b := Write(entries[i].key), Write(entries[j].key);
      |a| < |b| || (|a| == |b| && exists k: nat :: SmallerAt(a, b, k))
  {
    hide LexLess, Write;
    var a, b := Write(entries[i].key), Write(entries[j].key);
    assert Before(entries[i], entries[j]);
    if |a| == |b| {
      LexLessIff(a, b);
    }
  }

  // ----- The standard's own examples, appendix A of RFC 8949 -----

  /** Numbers, with an argument of each width. */
  lemma StandardNumbers()
    ensures Write(Unsigned(0)) == [0x00] && Write(Unsigned(23)) == [0x17] && Write(Unsigned(24)) == [0x18, 0x18]
    ensures Write(Unsigned(1000)) == [0x19, 0x03, 0xe8] && Write(Unsigned(1000000)) == [0x1a, 0x00, 0x0f, 0x42, 0x40]
  {
  }

  lemma StandardWideNumber()
    ensures Write(Unsigned(1000000000000)) == [0x1b, 0x00, 0x00, 0x00, 0xe8, 0xd4, 0xa5, 0x10, 0x00]
  {
    assert BigEndian(0, 3) == [0x00, 0x00, 0x00];
    assert BigEndian(0xe8, 4) == [0x00, 0x00, 0x00, 0xe8];
    assert BigEndian(0xe8d4, 5) == BigEndian(0xe8, 4) + [0xd4];
    assert BigEndian(0xe8d4a5, 6) == BigEndian(0xe8d4, 5) + [0xa5];
    assert BigEndian(0xe8d4a510, 7) == BigEndian(0xe8d4a5, 6) + [0x10];
    assert BigEndian(1000000000000, 8) == BigEndian(0xe8d4a510, 7) + [0x00];
  }

  lemma StandardNegatives()
    ensures Write(Negative(0)) == [0x20] && Write(Negative(999)) == [0x39, 0x03, 0xe7]  // -1 and -1000
  {
  }

  lemma StandardStrings()
    ensures Write(ByteString([1, 2, 3, 4])) == [0x44, 0x01, 0x02, 0x03, 0x04]
    ensures Write(Text(Ascii("IETF"))) == [0x64, 0x49, 0x45, 0x54, 0x46]
    ensures Write(Bool(false)) == [0xf4] && Write(Bool(true)) == [0xf5] && Write(Null) == [0xf6]
  {
  }

  lemma StandardContainers()
    ensures Write(Array([Unsigned(1), Array([Unsigned(2), Unsigned(3)])])) == [0x82, 0x01, 0x82, 0x02, 0x03]
    ensures Write(Map([Entry(Unsigned(1), Unsigned(2)), Entry(Unsigned(3), Unsigned(4))])) == [0xa2, 0x01, 0x02, 0x03, 0x04]
  {
  }

  lemma StandardTag()
    ensures Write(Tag(1, Unsigned(1363896240))) == [0xc1, 0x1a, 0x51, 0x4b, 0x67, 0xb0]
  {
  }

  // ----- Decoding -----

  /** Whatever the reader and the type, an accepted byte string is the encoding of
      the canonical value graph it was made from. */
  lemma AcceptsOnlyItsOwn<T>(read: Bytes -> Option<Value>, into: Value -> Option<T>, bytes: Bytes)
    requires Decode(read, into, bytes).Ok?
    ensures Accepted(read, bytes).Ok?
    ensures var v := Accepted(read, bytes).value;
            IsCanonical(v) && Encode(v) == Ok(bytes) && into(v) == Some(Decode(read, into, bytes).value)
  {
    var v := read(bytes).value;
    ResultIsCanonical(v);
    CanonicalizeIdempotent(v);
  }

  /** With a reader that reads back what was written of `v`, decoding undoes
      encoding, and no other byte string is accepted as that value graph. */
  lemma DecodeInvertsEncode<T>(read: Bytes -> Option<Value>, into: Value -> Option<T>, v: Value, bytes: Bytes)
    requires Encode(v).Ok? && read(Encode(v).value) == Some(Canonicalize(v).value)
    ensures into(Canonicalize(v).value).Some? ==> Decode(read, into, Encode(v).value) == Ok(into(Canonicalize(v).value).value)
    ensures Accepted(read, bytes) == Ok(Canonicalize(v).value) <==> Encode(v) == Ok(bytes)
  {
    CanonicalizeIdempotent(v);
    if Accepted(read, bytes) == Ok(Canonicalize(v).value) {
      var w := read(bytes).value;
      assert Write(Canonicalize(w).value) == bytes;
    }
  }

  /** The value is read back from what is written of it. */
  ghost predicate ReadsBack(read: Bytes -> Option<Value>, v: Value) {
    WellSized(v) && Accepted(read, Write(v)) == Ok(v)
  }

  /** No two byte strings decode to one value of the type. */
  ghost predicate OneStringEach<T(!new)>(read: Bytes -> Option<Value>, into: Value -> Option<T>) {
    forall a, b :: Decode(read, into, a).Ok? && Decode(read, into, a) == Decode(read, into, b) ==> a == b
  }

  /** No two value graphs that are read back make one value of the type. */
  ghost predicate TellsApart<T(!new)>(read: Bytes -> Option<Value>, into: Value -> Option<T>) {
    forall v, w :: ReadsBack(read, v) && ReadsBack(read, w) && into(v).Some? && into(v) == into(w) ==> v == w
  }

  /** A type has one byte string per value exactly if its values tell apart the
      value graphs that the reader reads back; whatever else the reader refuses,
      lengths it makes are machine words. */
  lemma OneStringEachIff<T(!new)>(read: Bytes -> Option<Value>, into: Value -> Option<T>)
    requires forall bytes | read(bytes).Some? :: WellSized(read(bytes).value)
    ensures OneStringEach(read, into) <==> TellsApart(read, into)
  {
    hide Accepted, WellSized, Write;
    if TellsApart(read, into) {
      forall a, b | Decode(read, into, a).Ok? && Decode(read, into, a) == Decode(read, into, b)
        ensures a == b
      {
        AcceptedReadsBack(read, a);
        AcceptedReadsBack(read, b);
      }
    }
    if OneStringEach(read, into) {
      forall v, w | ReadsBack(read, v) && ReadsBack(read, w) && into(v).Some? && into(v) == into(w)
        ensures v == w
      {
        assert Decode(read, into, Write(v)) == Ok(into(v).value) == Decode(read, into, Write(w));
        WriteInjective(v, w);
      }
    }
  }

  lemma AcceptedReadsBack(read: Bytes -> Option<Value>, bytes: Bytes)
    requires Accepted(read, bytes).Ok? && (read(bytes).Some? ==> WellSized(read(bytes).value))
    ensures var v := Accepted(read, bytes).value; ReadsBack(read, v) && Write(v) == bytes
  {
    hide IsCanonical, WellSized, Canonicalize, Write;
    ResultIsCanonical(read(bytes).value);
  }

  // A struct with the one field `a`, made from a map and skipping other keys.

  function FieldA(v: Value): Option<Value> {
    if v.Map? then ValueOf(v.entries, Text(Ascii("a"))) else None
  }

  function ValueOf(entries: seq<Entry>, key: Value): Option<Value> {
    if entries == [] then None
    else if entries[0].key == key then Some(entries[0].val)
    else ValueOf(entries[1..], key)
  }

  function OnlyA(n: u64): Value {
    Map([Entry(Text(Ascii("a")), Unsigned(n))])
  }

  function AAndB(n: u64, m: u64): Value {
    Map([Entry(Text(Ascii("a")), Unsigned(n)), Entry(Text(Ascii("b")), Unsigned(m))])
  }

  /** A type that skips fields it does not know has more than one byte string per
      value: the same struct decodes from a map with another field and from the
      map without it. */
  lemma SkippedFieldTwoStrings(read: Bytes -> Option<Value>, n: u64, m: u64)
    requires ReadsBack(read, OnlyA(n)) && ReadsBack(read, AAndB(n, m))
    ensures var a, b := Write(OnlyA(n)), Write(AAndB(n, m));
            a != b && Decode(read, FieldA, a) == Decode(read, FieldA, b) == Ok(Unsigned(n))
    ensures !OneStringEach(read, FieldA)
  {
    hide Accepted, Write;
    var v, w := OnlyA(n), AAndB(n, m);
    assert |v.entries| != |w.entries|;
    if Write(v) == Write(w) {
      WriteInjective(v, w);
    }
    assert Decode(read, FieldA, Write(v)) == Ok(Unsigned(n));
    assert Decode(read, FieldA, Write(w)) == Ok(Unsigned(n));
  }

  /** Both maps are canonical, so a reader that reads back what is written of them
      meets that condition. */
  lemma BothCanonical(read: Bytes -> Option<Value>, n: u64, m: u64)
    requires read(Write(OnlyA(n))) == Some(OnlyA(n)) && read(Write(AAndB(n, m))) == Some(AAndB(n, m))
    ensures ReadsBack(read, OnlyA(n)) && ReadsBack(read, AAndB(n, m))
  {
    var v, w := OnlyA(n), AAndB(n, m);
    KeysInOrder(n, m);
    PlainEntries(v);
    PlainEntries(w);
    CanonicalIffFixed(v);
    CanonicalIffFixed(w);
  }

  lemma PlainEntries(v: Value)
    requires v.Map? && Ascending(v.entries) && |v.entries| < 0x1_0000_0000_0000_0000
    requires forall i :: 0 <= i < |v.entries| ==> v.entries[i].key.Text? && v.entries[i].val.Unsigned?
    ensures IsCanonical(v) && WellSized(v)
  {
    hide Ascending;
    forall e | e in v.entries
      ensures e.key.Text? && e.val.Unsigned?
    {
      var i :| 0 <= i < |v.entries| && v.entries[i] == e;
    }
  }

  lemma KeysInOrder(n: u64, m: u64)
    ensures Ascending(AAndB(n, m).entries)
  {
    var a, b := Write(Text(Ascii("a"))), Write(Text(Ascii("b")));
    assert a == [97, 97] && b == [97, 98];
    assert a[0] == b[0] && a[1..] == [97] && b[1..] == [98];
    assert LexLess(a[1..], b[1..]);
  }
}
