/**
 * Building a snapshot from its wire form, putting it in canonical order, and
 * the envelope it travels in.
 */
module Snapshots {
  import opened Wrappers
  import opened Hashing
  import opened Canon
  import opened Config
  import opened Contents

  type SystemMap = map<Str, SystemSpec>

  type KeyMap = map<Hash32, Binding>

  // ----- Building -----

  function AddSystem(systems: SystemMap, s: SystemSpec): Result<SystemMap, SnapshotError> {
    if s.routes == [] then Err(NoRoutes(s.systemId))
    else if s.defaultRoute >= |s.routes| then Err(BadDefaultRoute(s.systemId))
    else if s.systemId in systems then Err(DuplicateSystem(s.systemId))
    else Ok(systems[s.systemId := s])
  }

  function AddKey(systems: SystemMap, keys: KeyMap, k: KeySpec): Result<KeyMap, SnapshotError> {
    if k.systemId !in systems then Err(KeyBindsUnknownSystem(k.systemId))
    else if k.keyHash in keys then Err(DuplicateKey(k.keyHash))
    else Ok(keys[k.keyHash := Binding(k.tenantId, k.systemId)])
  }

  function AllSystems(ss: seq<SystemSpec>): Result<SystemMap, SnapshotError> {
    if ss == [] then Ok(map[])
    else
      match AllSystems(ss[..|ss| - 1])
      case Err(x) => Err(x)
      case Ok(systems) => AddSystem(systems, ss[|ss| - 1])
  }

  function AllKeys(systems: SystemMap, ks: seq<KeySpec>): Result<KeyMap, SnapshotError> {
    if ks == [] then Ok(map[])
    else
      match AllKeys(systems, ks[..|ks| - 1])
      case Err(x) => Err(x)
      case Ok(keys) => AddKey(systems, keys, ks[|ks| - 1])
  }

  function Built(H: HashFn, spec: Spec): Result<Snapshot, SnapshotError> {
    match ContentHash(H, spec.content)
    case Err(x) => Err(Unencodable(x))
    case Ok(hash) =>
      match AllSystems(spec.content.systems)
      case Err(x) => Err(x)
      case Ok(systems) =>
        match AllKeys(systems, spec.content.keys)
        case Err(x) => Err(x)
        case Ok(keys) => Ok(Snapshot(spec.generation, hash, spec.content.gatewayVersion, systems, keys))
  }

  lemma {:induction false} FirstErrorStays(ss: seq<SystemSpec>, n: nat)
    requires n <= |ss| && AllSystems(ss[..n]).Err?
    ensures AllSystems(ss) == AllSystems(ss[..n])
    decreases |ss| - n
  {
    if n == |ss| {
      assert ss[..n] == ss;
    } else {
      assert ss[..n + 1][..n] == ss[..n];
      FirstErrorStays(ss, n + 1);
    }
  }

  lemma {:induction false} FirstKeyErrorStays(systems: SystemMap, ks: seq<KeySpec>, n: nat)
    requires n <= |ks| && AllKeys(systems, ks[..n]).Err?
    ensures AllKeys(systems, ks) == AllKeys(systems, ks[..n])
    decreases |ks| - n
  {
    if n == |ks| {
      assert ks[..n] == ks;
    } else {
      assert ks[..n + 1][..n] == ks[..n];
      FirstKeyErrorStays(systems, ks, n + 1);
    }
  }

  /** Hash the content, then index systems and keys, refusing at the first that
      does not fit. */
  method Build(H: HashFn, spec: Spec) returns (r: Result<Snapshot, SnapshotError>)
    ensures r == Built(H, spec)
  {
    hide ContentHash;
    var hashed := ContentHash(H, spec.content);
    if hashed.Err? {
      return Err(Unencodable(hashed.error));
    }
    var ss, ks := spec.content.systems, spec.content.keys;
    var systems: SystemMap := map[];
    for n := 0 to |ss|
      invariant AllSystems(ss[..n]) == Ok(systems)
    {
      var s := ss[n];
      assert ss[..n + 1][..n] == ss[..n];
      FirstErrorIf(ss, n);
      if s.routes == [] {
        return Err(NoRoutes(s.systemId));
      }
      if s.defaultRoute >= |s.routes| {
        return Err(BadDefaultRoute(s.systemId));
      }
      if s.systemId in systems {
        return Err(DuplicateSystem(s.systemId));
      }
      systems := systems[s.systemId := s];
    }
    assert ss[..|ss|] == ss;
    var keys: KeyMap := map[];
    for n := 0 to |ks|
      invariant AllKeys(systems, ks[..n]) == Ok(keys)
    {
      var k := ks[n];
      assert ks[..n + 1][..n] == ks[..n];
      FirstKeyErrorIf(systems, ks, n);
      if k.systemId !in systems {
        return Err(KeyBindsUnknownSystem(k.systemId));
      }
      if k.keyHash in keys {
        return Err(DuplicateKey(k.keyHash));
      }
      keys := keys[k.keyHash := Binding(k.tenantId, k.systemId)];
    }
    assert ks[..|ks|] == ks;
    r := Ok(Snapshot(spec.generation, hashed.value, spec.content.gatewayVersion, systems, keys));
  }

  lemma FirstErrorIf(ss: seq<SystemSpec>, n: nat)
    requires n < |ss|
    ensures AllSystems(ss[..n + 1]).Err? ==> AllSystems(ss) == AllSystems(ss[..n + 1])
  {
    if AllSystems(ss[..n + 1]).Err? {
      FirstErrorStays(ss, n + 1);
    }
  }

  lemma FirstKeyErrorIf(systems: SystemMap, ks: seq<KeySpec>, n: nat)
    requires n < |ks|
    ensures AllKeys(systems, ks[..n + 1]).Err? ==> AllKeys(systems, ks) == AllKeys(systems, ks[..n + 1])
  {
    if AllKeys(systems, ks[..n + 1]).Err? {
      FirstKeyErrorStays(systems, ks, n + 1);
    }
  }

  // ----- What is accepted, and what comes of it -----

  ghost predicate SystemsFit(ss: seq<SystemSpec>) {
    && (forall s | s in ss :: s.routes != [] && s.defaultRoute < |s.routes|)
    && (forall i, j :: 0 <= i < j < |ss| ==> ss[i].systemId != ss[j].systemId)
  }

  ghost predicate KeysFit(systems: SystemMap, ks: seq<KeySpec>) {
    && (forall k | k in ks :: k.systemId in systems)
    && (forall i, j :: 0 <= i < j < |ks| ==> ks[i].keyHash != ks[j].keyHash)
  }

  /** The index of the systems: every one under its id, and nothing else. */
  ghost predicate Indexes(systems: SystemMap, ss: seq<SystemSpec>) {
    && (forall s | s in ss :: s.systemId in systems && systems[s.systemId] == s)
    && (forall id | id in systems :: systems[id] in ss && systems[id].systemId == id)
  }

  ghost predicate IndexesKeys(keys: KeyMap, ks: seq<KeySpec>) {
    && (forall k | k in ks :: k.keyHash in keys && keys[k.keyHash] == Binding(k.tenantId, k.systemId))
    && (forall h | h in keys :: exists k :: k in ks && k.keyHash == h)
  }

  lemma {:induction false} AllSystemsIff(ss: seq<SystemSpec>)
    ensures AllSystems(ss).Ok? <==> SystemsFit(ss)
    ensures AllSystems(ss).Ok? ==> Indexes(AllSystems(ss).value, ss)
  {
    if ss != [] {
      var t, s := ss[..|ss| - 1], ss[|ss| - 1];
      assert ss == t + [s];
      AllSystemsIff(t);
      if AllSystems(t).Ok? {
        SystemsFitOneMore(AllSystems(t).value, t, s);
      } else if SystemsFit(ss) {
        assert SystemsFit(t);
      }
    }
  }

  lemma SystemsFitOneMore(systems: SystemMap, t: seq<SystemSpec>, s: SystemSpec)
    requires SystemsFit(t) && Indexes(systems, t)
    ensures AddSystem(systems, s).Ok? <==> SystemsFit(t + [s])
    ensures AddSystem(systems, s).Ok? ==> Indexes(AddSystem(systems, s).value, t + [s])
  {
    var ss := t + [s];
    if s.systemId in systems {
      var i :| 0 <= i < |t| && t[i] == systems[s.systemId];
      assert ss[i].systemId == ss[|t|].systemId;
    } else {
      assert forall i :: 0 <= i < |t| ==> t[i] in t && t[i].systemId != s.systemId;
    }
    assert s in ss;
  }

  lemma {:induction false} AllKeysIff(systems: SystemMap, ks: seq<KeySpec>)
    ensures AllKeys(systems, ks).Ok? <==> KeysFit(systems, ks)
    ensures AllKeys(systems, ks).Ok? ==> IndexesKeys(AllKeys(systems, ks).value, ks)
  {
    if ks != [] {
      var t, k := ks[..|ks| - 1], ks[|ks| - 1];
      assert ks == t + [k];
      AllKeysIff(systems, t);
      if AllKeys(systems, t).Ok? {
        KeysFitOneMore(systems, AllKeys(systems, t).value, t, k);
      } else if KeysFit(systems, ks) {
        assert KeysFit(systems, t);
      }
    }
  }

  lemma KeysFitOneMore(systems: SystemMap, keys: KeyMap, t: seq<KeySpec>, k: KeySpec)
    requires KeysFit(systems, t) && IndexesKeys(keys, t)
    ensures AddKey(systems, keys, k).Ok? <==> KeysFit(systems, t + [k])
    ensures AddKey(systems, keys, k).Ok? ==> IndexesKeys(AddKey(systems, keys, k).value, t + [k])
  {
    var ks := t + [k];
    if k.keyHash in keys {
      var x :| x in t && x.keyHash == k.keyHash;
      var i :| 0 <= i < |t| && t[i] == x;
      assert ks[i].keyHash == ks[|t|].keyHash;
    } else {
      assert forall i :: 0 <= i < |t| ==> t[i] in t && t[i].keyHash != k.keyHash;
    }
    assert k in ks;
  }

  /** A content a gateway can serve: each system has a default route among its
      routes, ids and key hashes are distinct, every key binds a system. */
  ghost predicate Fit(c: Content) {
    && (forall s | s in c.systems :: s.routes != [] && s.defaultRoute < |s.routes|)
    && (forall i, j :: 0 <= i < j < |c.systems| ==> c.systems[i].systemId != c.systems[j].systemId)
    && (forall k | k in c.keys :: exists s :: s in c.systems && s.systemId == k.systemId)
    && (forall i, j :: 0 <= i < j < |c.keys| ==> c.keys[i].keyHash != c.keys[j].keyHash)
  }

  /** A spec builds exactly if its content is fit, whatever its generation; the
      snapshot then indexes exactly what the spec lists. */
  lemma BuiltIff(H: HashFn, spec: Spec)
    ensures Built(H, spec).Ok? <==> Fit(spec.content)
    ensures Built(H, spec).Ok? ==>
              var snap := Built(H, spec).value;
              && snap.generation == spec.generation && Ok(snap.contentHash) == ContentHash(H, spec.content)
              && snap.gatewayVersion == spec.content.gatewayVersion
              && Indexes(snap.systems, spec.content.systems) && IndexesKeys(snap.keys, spec.content.keys)
  {
    hide ContentHash, AllSystems, AllKeys;
    ContentHashTotal(H, spec.content);
    AllSystemsIff(spec.content.systems);
    if AllSystems(spec.content.systems).Ok? {
      AllKeysIff(AllSystems(spec.content.systems).value, spec.content.keys);
    }
  }

  // ----- Canonical order -----

  function InsertBy<T>(key: T -> Bytes, x: T, sorted: seq<T>): (r: seq<T>)
    ensures multiset(r) == multiset(sorted + [x])
  {
    if sorted == [] || !LexLess(key(sorted[0]), key(x)) then [x] + sorted
    else
      assert sorted == [sorted[0]] + sorted[1..];
      [sorted[0]] + InsertBy(key, x, sorted[1..])
  }

  /** A stable sort. */
  function SortBy<T>(key: T -> Bytes, s: seq<T>): (r: seq<T>)
    ensures multiset(r) == multiset(s) && |r| == |s|
  {
    if s == [] then []
    else
      assert s == [s[0]] + s[1..];
      var r := InsertBy(key, s[0], SortBy(key, s[1..]));
      assert |r| == |multiset(r)|;
      r
  }

  function SystemKey(s: SystemSpec): Bytes { s.systemId }

  function KeyKey(k: KeySpec): Bytes { k.keyHash }

  /** Systems by id and keys by hash.  Routes keep their order: it is semantic. */
  function Ordered(c: Content): Content {
    c.(systems := SortBy(SystemKey, c.systems), keys := SortBy(KeyKey, c.keys))
  }

  ghost predicate Ascending<T>(key: T -> Bytes, s: seq<T>) {
    forall i, j :: 0 <= i < j < |s| ==> LexLess(key(s[i]), key(s[j]))
  }

  ghost predicate DistinctBy<T>(key: T -> Bytes, s: seq<T>) {
    forall i, j :: 0 <= i < j < |s| ==> key(s[i]) != key(s[j])
  }

  lemma {:induction false} InsertKeepsAscending<T>(key: T -> Bytes, x: T, s: seq<T>)
    requires Ascending(key, s) && forall i :: 0 <= i < |s| ==> key(s[i]) != key(x)
    ensures Ascending(key, InsertBy(key, x, s))
  {
    if s != [] {
      LexTotal(key(s[0]), key(x));
      if LexLess(key(s[0]), key(x)) {
        InsertKeepsAscending(key, x, s[1..]);
        var r := InsertBy(key, x, s[1..]);
        forall y | y in r
          ensures LexLess(key(s[0]), key(y))
        {
          assert y in multiset(r);
        }
      } else {
        forall i | 0 < i < |s|
          ensures LexLess(key(x), key(s[i]))
        {
          LexTransitive(key(x), key(s[0]), key(s[i]));
        }
      }
    }
  }

  lemma {:induction false} SortAscends<T>(key: T -> Bytes, s: seq<T>)
    requires DistinctBy(key, s)
    ensures Ascending(key, SortBy(key, s))
  {
    if s != [] {
      var t := s[1..];
      SortAscends(key, t);
      forall i | 0 <= i < |SortBy(key, t)|
        ensures key(SortBy(key, t)[i]) != key(s[0])
      {
        assert SortBy(key, t)[i] in multiset(t);
        var j :| 0 <= j < |t| && t[j] == SortBy(key, t)[i];
        assert s[j + 1] == t[j];
      }
      InsertKeepsAscending(key, s[0], SortBy(key, t));
    }
  }

  lemma WithoutOne<T>(s: seq<T>, i: nat)
    requires i < |s|
    ensures multiset(s[..i] + s[i + 1..]) == multiset(s) - multiset{s[i]}
  {
    assert s == s[..i] + ([s[i]] + s[i + 1..]);
  }

  lemma WithoutFirst<T>(s: seq<T>)
    requires s != []
    ensures multiset(s[1..]) == multiset(s) - multiset{s[0]}
  {
    var first, rest := [s[0]], s[1..];
    assert s == first + rest;
    assert multiset(first) == multiset{s[0]};
  }

  lemma SameFirst<T>(key: T -> Bytes, a: seq<T>, b: seq<T>)
    requires Ascending(key, a) && Ascending(key, b) && multiset(a) == multiset(b) && a != [] && b != []
    ensures a[0] == b[0]
  {
    InBoth(a, b);
    assert a[0] in a && b[0] in b;
    var i :| 0 <= i < |b| && b[i] == a[0];
    var j :| 0 <= j < |a| && a[j] == b[0];
    LexTotal(key(a[0]), key(b[0]));
  }

  lemma SameRest<T>(a: seq<T>, b: seq<T>)
    requires multiset(a) == multiset(b) && a != [] && b != [] && a[0] == b[0]
    ensures multiset(a[1..]) == multiset(b[1..])
  {
    WithoutFirst(a);
    WithoutFirst(b);
  }

  lemma SameLength<T>(a: seq<T>, b: seq<T>)
    requires multiset(a) == multiset(b)
    ensures |a| == |b|
  {
    assert |multiset(a)| == |a| && |multiset(b)| == |b|;
  }

  lemma {:induction false} AscendingUnique<T>(key: T -> Bytes, a: seq<T>, b: seq<T>)
    requires Ascending(key, a) && Ascending(key, b) && multiset(a) == multiset(b)
    ensures a == b
  {
    SameLength(a, b);
    if a != [] {
      SameFirst(key, a, b);
      SameRest(a, b);
      AscendingUnique(key, a[1..], b[1..]);
      assert a == [a[0]] + a[1..] && b == [b[0]] + b[1..];
    }
  }

  /** `a` without the element at `i`. */
  ghost function Less<T>(a: seq<T>, i: nat): seq<T>
    requires i < |a|
  {
    a[..i] + a[i + 1..]
  }

  lemma TakeOut<T>(a: seq<T>, b: seq<T>) returns (i: nat)
    requires multiset(a) == multiset(b) && b != []
    ensures i < |a| && a[i] == b[0] && multiset(Less(a, i)) == multiset(b[1..])
  {
    InBoth(a, b);
    assert b[0] in b;
    i :| 0 <= i < |a| && a[i] == b[0];
    WithoutOne(a, i);
    WithoutFirst(b);
  }

  lemma DistinctLess<T>(key: T -> Bytes, a: seq<T>, i: nat)
    requires DistinctBy(key, a) && i < |a|
    ensures DistinctBy(key, Less(a, i))
    ensures forall x | x in Less(a, i) :: key(x) != key(a[i])
  {
    var rest := Less(a, i);
    assert forall m :: 0 <= m < |rest| ==> rest[m] == a[if m < i then m else m + 1];
  }

  lemma {:induction false} DistinctWhateverOrder<T>(key: T -> Bytes, a: seq<T>, b: seq<T>)
    requires multiset(a) == multiset(b) && DistinctBy(key, a)
    ensures DistinctBy(key, b)
    decreases |b|
  {
    if b != [] {
      hide Less;
      var i := TakeOut(a, b);
      DistinctLess(key, a, i);
      DistinctWhateverOrder(key, Less(a, i), b[1..]);
      InBoth(Less(a, i), b[1..]);
      forall j | 0 < j < |b|
        ensures key(b[j]) != key(b[0])
      {
        assert b[1..][j - 1] == b[j];
      }
      DistinctCons(key, b);
    }
  }

  lemma DistinctCons<T>(key: T -> Bytes, b: seq<T>)
    requires b != [] && DistinctBy(key, b[1..]) && forall j :: 0 < j < |b| ==> key(b[j]) != key(b[0])
    ensures DistinctBy(key, b)
  {
    assert forall j :: 0 < j < |b| ==> b[1..][j - 1] == b[j];
  }

  lemma InBoth<T>(a: seq<T>, b: seq<T>)
    requires multiset(a) == multiset(b)
    ensures forall x :: x in a <==> x in b
  {
    forall x
      ensures x in a <==> x in b
    {
      assert x in a <==> x in multiset(a);
      assert x in b <==> x in multiset(b);
    }
  }

  /** The same rows, in any order. */
  ghost predicate SameRows(a: Content, b: Content) {
    && a.gatewayVersion == b.gatewayVersion
    && multiset(a.systems) == multiset(b.systems) && multiset(a.keys) == multiset(b.keys)
  }

  lemma FitIffDistinct(c: Content)
    ensures Fit(c) <==>
            && (forall s | s in c.systems :: s.routes != [] && s.defaultRoute < |s.routes|)
            && DistinctBy(SystemKey, c.systems) && DistinctBy(KeyKey, c.keys)
            && (forall k | k in c.keys :: exists s :: s in c.systems && s.systemId == k.systemId)
  {
    if DistinctBy(SystemKey, c.systems) {
      forall i, j | 0 <= i < j < |c.systems|
        ensures c.systems[i].systemId != c.systems[j].systemId
      {
        assert SystemKey(c.systems[i]) != SystemKey(c.systems[j]);
      }
    }
    if DistinctBy(KeyKey, c.keys) {
      forall i, j | 0 <= i < j < |c.keys|
        ensures c.keys[i].keyHash != c.keys[j].keyHash
      {
        assert KeyKey(c.keys[i]) != KeyKey(c.keys[j]);
      }
    }
  }

  lemma FitFollows(a: Content, b: Content)
    requires SameRows(a, b) && Fit(a)
    ensures Fit(b)
  {
    FitIffDistinct(a);
    FitIffDistinct(b);
    InBoth(a.systems, b.systems);
    InBoth(a.keys, b.keys);
    DistinctWhateverOrder(SystemKey, a.systems, b.systems);
    DistinctWhateverOrder(KeyKey, a.keys, b.keys);
  }

  /** Rows that come back in another order are accepted exactly as before, and
      if they are, then canonical order makes one content of them. */
  lemma OrderDoesNotMatter(a: Content, b: Content)
    requires SameRows(a, b)
    ensures Fit(Ordered(a)) <==> Fit(b)
    ensures Fit(a) ==> Ordered(a) == Ordered(b)
  {
    hide Fit, SortBy;
    if Fit(b) {
      FitFollows(b, Ordered(a));
    }
    if Fit(Ordered(a)) {
      FitFollows(Ordered(a), b);
    }
    if Fit(a) {
      FitFollows(a, b);
      FitIffDistinct(a);
      FitIffDistinct(b);
      SortAscends(SystemKey, a.systems);
      SortAscends(SystemKey, b.systems);
      AscendingUnique(SystemKey, Ordered(a).systems, Ordered(b).systems);
      SortAscends(KeyKey, a.keys);
      SortAscends(KeyKey, b.keys);
      AscendingUnique(KeyKey, Ordered(a).keys, Ordered(b).keys);
    }
  }

  /** Canonical order is the same rows by id and by key hash, ascending byte by byte, and
      nothing in a row is touched. */
  lemma OrderedIs(c: Content)
    requires Fit(c)
    ensures
      var o := Ordered(c);
      && o.gatewayVersion == c.gatewayVersion
      && multiset(o.systems) == multiset(c.systems) && multiset(o.keys) == multiset(c.keys)
      && (forall i, j :: 0 <= i < j < |o.systems| ==> LexLess(o.systems[i].systemId, o.systems[j].systemId))
      && (forall i, j :: 0 <= i < j < |o.keys| ==> LexLess(o.keys[i].keyHash, o.keys[j].keyHash))
  {
    hide Fit, SortBy, LexLess;
    FitIffDistinct(c);
    SortAscends(SystemKey, c.systems);
    SortAscends(KeyKey, c.keys);
  }

  // ----- The envelope -----

  datatype Envelope = Envelope(generation: u64, contentHash: Hash32, spec: Spec)

  function Seal(spec: Spec, contentHash: Hash32): Envelope {
    Envelope(spec.generation, contentHash, spec)
  }

  function VerifyEnvelope(H: HashFn, e: Envelope): Result<(), SnapshotError> {
    if e.spec.generation != e.generation then Err(EnvelopeMismatch)
    else
      match ContentHash(H, e.spec.content)
      case Err(x) => Err(Unencodable(x))
      case Ok(hash) => if hash != e.contentHash then Err(EnvelopeMismatch) else Ok(())
  }

  /** Verify, then build. */
  function Install(H: HashFn, e: Envelope): Result<Snapshot, SnapshotError> {
    match VerifyEnvelope(H, e)
    case Err(x) => Err(x)
    case Ok(_) => Built(H, e.spec)
  }

  /** An envelope is installed exactly if it describes its own contents and they
      are fit; the snapshot then carries the envelope's generation and hash. */
  lemma InstalledIff(H: HashFn, e: Envelope)
    ensures Install(H, e).Ok? <==>
            e.spec.generation == e.generation && ContentHash(H, e.spec.content) == Ok(e.contentHash) && Fit(e.spec.content)
    ensures Install(H, e).Ok? ==>
              && Install(H, e).value.generation == e.generation && Install(H, e).value.contentHash == e.contentHash
              && Indexes(Install(H, e).value.systems, e.spec.content.systems)
              && IndexesKeys(Install(H, e).value.keys, e.spec.content.keys)
  {
    hide ContentHash, Fit, Built, Indexes, IndexesKeys;
    BuiltIff(H, e.spec);
  }

  /** Whatever travels under one content hash and is installed has one content,
      or the encodings collide. */
  lemma InstalledContentBinds(H: HashFn, d: Envelope, e: Envelope)
    requires Install(H, d).Ok? && Install(H, e).Ok? && d.contentHash == e.contentHash
    ensures d.spec.content == e.spec.content || CollisionIn(H, ContentInputs(d.spec.content) + ContentInputs(e.spec.content))
  {
    hide ContentHash, Fit, Built, ContentInputs, Indexes, IndexesKeys, Install;
    InstalledIff(H, d);
    InstalledIff(H, e);
    ContentHashBinds(H, d.spec.content, e.spec.content);
  }
}
