/** A content hash stands for one content. */
module Contents {
  import opened Wrappers
  import opened Hashing
  import opened Canon
  import opened CanonTheorems
  import opened Events
  import opened Config

  // ----- Records and variants -----

  /** Two records of one type that are reorderings have, field by field,
      reorderings as values. */
  lemma RecordReordered(names: seq<string>, a: seq<Value>, b: seq<Value>)
    requires GoodNames(names) && |names| == |a| == |b|
    requires Reordered(Record(names, a), Record(names, b))
    ensures forall i :: 0 <= i < |a| ==> Reordered(a[i], b[i])
  {
    hide Reordered, ReorderedEntry;
    NamesKeepDistinct(names);
    var ns := Names(names);
    var s, t := Record(names, a).entries, Record(names, b).entries;
    var p := Matching(s, t);
    forall i | 0 <= i < |a|
      ensures Reordered(a[i], b[i])
    {
      assert ReorderedEntry(s[i], t[p[i]]);
      FieldReordered(ns, a, b, i, p[i]);
    }
  }

  lemma FieldReordered(names: seq<Str>, a: seq<Value>, b: seq<Value>, i: nat, j: nat)
    requires |names| == |a| == |b| && NoRepeats(names) && i < |a| && j < |a|
    requires ReorderedEntry(Entry(Text(names[i]), a[i]), Entry(Text(names[j]), b[j]))
    ensures i == j && Reordered(a[i], b[i])
  {
  }

  lemma RecordAccepted(names: seq<string>, values: seq<Value>)
    requires GoodNames(names) && |names| == |values|
    requires forall i :: 0 <= i < |values| ==> WellSized(values[i]) && !Refused(values[i])
    ensures WellSized(Record(names, values)) && !Refused(Record(names, values))
  {
    NamesKeepDistinct(names);
    var s := Record(names, values);
    forall e | e in s.entries
      ensures !Refused(e.key) && !Refused(e.val) && WellSized(e.key) && WellSized(e.val)
    {
    }
  }

  lemma VariantReordered(name: string, a: Value, name': string, b: Value)
    requires IsAscii(name) && |name| < 0x1_0000 && IsAscii(name') && |name'| < 0x1_0000
    requires Reordered(Variant(name, a), Variant(name', b))
    ensures Ascii(name) == Ascii(name') && Reordered(a, b)
  {
    hide Reordered, ReorderedEntry;
    var s, t := Variant(name, a).entries, Variant(name', b).entries;
    var p := Matching(s, t);
    assert ReorderedEntry(s[0], t[p[0]]);
    EntryParts(s[0], t[0]);
  }

  lemma EntryParts(x: Entry, y: Entry)
    requires ReorderedEntry(x, y) && x.key.Text?
    ensures x.key == y.key && Reordered(x.val, y.val)
  {
  }

  // ----- Matchers -----

  function MatcherValues(ms: seq<Matcher>): (r: seq<Value>)
    ensures |r| == |ms| && forall i :: 0 <= i < |ms| ==> r[i] == MatcherValue(ms[i])
  {
    seq(|ms|, i requires 0 <= i < |ms| => MatcherValue(ms[i]))
  }

  /** The variant a matcher other than `Any` is written as. */
  function VariantOf(m: Matcher): (r: (string, Value))
    requires !m.Any?
    ensures IsAscii(r.0) && |r.0| < 0x1_0000
    ensures MatcherValue(m) == Variant(r.0, r.1)
  {
    HeaderNamesGood();
    match m
    case Path(p) => ("Path", Text(p))
    case ModelAlias(a) => ("ModelAlias", Text(a))
    case Header(n, v) => ("Header", Record(HeaderNames(), [Text(n), Text(v)]))
    case All(ms) => ("All", Array(MatcherValues(ms)))
  }

  lemma VariantAccepted(name: string, payload: Value)
    requires IsAscii(name) && |name| < 0x1_0000 && WellSized(payload) && !Refused(payload)
    ensures WellSized(Variant(name, payload)) && !Refused(Variant(name, payload))
  {
    forall e | e in Variant(name, payload).entries
      ensures !Refused(e.key) && !Refused(e.val) && WellSized(e.key) && WellSized(e.val)
    {
    }
  }

  lemma ArrayAccepted(items: seq<Value>)
    requires |items| < 0x1_0000_0000_0000_0000 && forall i :: 0 <= i < |items| ==> WellSized(items[i]) && !Refused(items[i])
    ensures WellSized(Array(items)) && !Refused(Array(items))
  {
  }

  lemma {:induction false} MatcherAccepted(m: Matcher)
    ensures WellSized(MatcherValue(m)) && !Refused(MatcherValue(m))
  {
    hide Refused, WellSized, Record, Variant;
    match m {
      case Any =>
        PlainAccepted(Text(Ascii("Any")));
      case Header(n, v) =>
        HeaderNamesGood();
        PlainAccepted(Text(n));
        PlainAccepted(Text(v));
        RecordAccepted(HeaderNames(), [Text(n), Text(v)]);
        VariantAccepted(VariantOf(m).0, VariantOf(m).1);
      case All(ms) =>
        forall i | 0 <= i < |ms|
          ensures WellSized(MatcherValues(ms)[i]) && !Refused(MatcherValues(ms)[i])
        {
          MatcherAccepted(ms[i]);
        }
        ArrayAccepted(MatcherValues(ms));
        VariantAccepted(VariantOf(m).0, VariantOf(m).1);
      case _ =>
        PlainAccepted(VariantOf(m).1);
        VariantAccepted(VariantOf(m).0, VariantOf(m).1);
    }
  }

  lemma PlainAccepted(v: Value)
    requires v.Text? || v.ByteString? || v.Unsigned?
    ensures WellSized(v) && !Refused(v)
  {
  }

  lemma VariantNamesTell(a: Matcher, b: Matcher)
    requires !a.Any? && !b.Any? && Ascii(VariantOf(a).0) == Ascii(VariantOf(b).0)
    ensures (a.Path? <==> b.Path?) && (a.ModelAlias? <==> b.ModelAlias?) && (a.Header? <==> b.Header?) && (a.All? <==> b.All?)
  {
    assert |VariantOf(a).0| == |VariantOf(b).0|;
  }

  lemma {:induction false} MatcherBinds(a: Matcher, b: Matcher)
    requires Reordered(MatcherValue(a), MatcherValue(b))
    ensures a == b
    decreases a
  {
    if a.Any? || b.Any? {
      return;
    }
    hide Record, Variant;
    VariantReordered(VariantOf(a).0, VariantOf(a).1, VariantOf(b).0, VariantOf(b).1);
    VariantNamesTell(a, b);
    match a {
      case Header(n, v) =>
        HeaderNamesGood();
        RecordReordered(HeaderNames(), [Text(n), Text(v)], [Text(b.name), Text(b.value)]);
        var x, y := [Text(n), Text(v)], [Text(b.name), Text(b.value)];
        assert Reordered(x[0], y[0]) && Reordered(x[1], y[1]);
      case All(ms) =>
        var x, y := MatcherValues(ms), MatcherValues(b.matchers);
        assert Reordered(Array(x), Array(y));
        forall i | 0 <= i < |ms|
          ensures ms[i] == b.matchers[i]
        {
          assert Reordered(x[i], y[i]);
          MatcherBinds(ms[i], b.matchers[i]);
        }
      case _ =>
    }
  }

  // ----- Routes, systems, keys -----

  function RouteFields(r: RouteSpec): (vs: seq<Value>)
    ensures |vs| == 6
  {
    [MatcherValue(r.matcher), Text(r.modelId), Text(r.modelVersion), Text(r.promptId), Text(r.promptVersion), ByteString(r.promptHash)]
  }

  lemma RouteSound(r: RouteSpec)
    ensures WellSized(RouteValue(r)) && !Refused(RouteValue(r))
  {
    hide Refused, WellSized, MatcherValue;
    RouteNamesGood();
    MatcherAccepted(r.matcher);
    var vs := RouteFields(r);
    forall i | 0 <= i < 6
      ensures WellSized(vs[i]) && !Refused(vs[i])
    {
      if i > 0 {
        PlainAccepted(vs[i]);
      }
    }
    RecordAccepted(RouteNames(), vs);
  }

  lemma RouteBinds(a: RouteSpec, b: RouteSpec)
    requires Reordered(RouteValue(a), RouteValue(b))
    ensures a == b
  {
    hide MatcherValue, Record;
    RouteNamesGood();
    var x, y := RouteFields(a), RouteFields(b);
    RecordReordered(RouteNames(), x, y);
    assert Reordered(x[0], y[0]) && Reordered(x[1], y[1]) && Reordered(x[2], y[2]);
    assert Reordered(x[3], y[3]) && Reordered(x[4], y[4]) && Reordered(x[5], y[5]);
    MatcherBinds(a.matcher, b.matcher);
  }

  function SystemFields(s: SystemSpec): (vs: seq<Value>)
    ensures |vs| == 8
  {
    [Text(s.systemId), Text(s.systemVersion), Text(s.ifuVersion), Text(RiskName(s.riskClass)), Text(s.policyId),
     Text(s.policyVersion), Array(RouteValues(s.routes)), Unsigned(s.defaultRoute)]
  }

  lemma SystemSound(s: SystemSpec)
    ensures WellSized(SystemValue(s)) && !Refused(SystemValue(s))
  {
    hide Refused, WellSized, RouteValue, RiskName;
    SystemNamesGood();
    forall i | 0 <= i < |s.routes|
      ensures WellSized(RouteValues(s.routes)[i]) && !Refused(RouteValues(s.routes)[i])
    {
      RouteSound(s.routes[i]);
    }
    ArrayAccepted(RouteValues(s.routes));
    var vs := SystemFields(s);
    forall i | 0 <= i < 8
      ensures WellSized(vs[i]) && !Refused(vs[i])
    {
      if i != 6 {
        PlainAccepted(vs[i]);
      }
    }
    RecordAccepted(SystemNames(), vs);
  }

  lemma RiskNamesTell(a: RiskClass, b: RiskClass)
    requires RiskName(a) == RiskName(b)
    ensures a == b
    ensures (a.High? <==> RiskName(a) == Ascii("high")) && (a.Minimal? <==> RiskName(a) == Ascii("minimal"))
    ensures a.Transparency? <==> RiskName(a) == Ascii("transparency")
    ensures a.Unclassified? <==> RiskName(a) == Ascii("unclassified")
  {
    assert |RiskName(a)| == |RiskName(b)| && RiskName(a)[0] == RiskName(b)[0];
  }

  lemma RoutesBind(a: seq<RouteSpec>, b: seq<RouteSpec>)
    requires Reordered(Array(RouteValues(a)), Array(RouteValues(b)))
    ensures a == b
  {
    hide RouteValue;
    forall i | 0 <= i < |a|
      ensures a[i] == b[i]
    {
      assert Reordered(RouteValues(a)[i], RouteValues(b)[i]);
      RouteBinds(a[i], b[i]);
    }
  }

  lemma SystemBinds(a: SystemSpec, b: SystemSpec)
    requires Reordered(SystemValue(a), SystemValue(b))
    ensures a == b
  {
    hide Record, RouteValues, RiskName;
    SystemNamesGood();
    var x, y := SystemFields(a), SystemFields(b);
    RecordReordered(SystemNames(), x, y);
    assert Reordered(x[0], y[0]) && Reordered(x[1], y[1]) && Reordered(x[2], y[2]) && Reordered(x[3], y[3]);
    assert Reordered(x[4], y[4]) && Reordered(x[5], y[5]) && Reordered(x[6], y[6]) && Reordered(x[7], y[7]);
    RiskNamesTell(a.riskClass, b.riskClass);
    RoutesBind(a.routes, b.routes);
  }

  lemma KeySound(k: KeySpec)
    ensures WellSized(KeyValue(k)) && !Refused(KeyValue(k))
  {
    hide Refused, WellSized;
    KeyNamesGood();
    var vs := [ByteString(k.keyHash), Text(k.tenantId), Text(k.systemId)];
    forall i | 0 <= i < 3
      ensures WellSized(vs[i]) && !Refused(vs[i])
    {
      PlainAccepted(vs[i]);
    }
    RecordAccepted(KeyNames(), vs);
  }

  lemma KeyBinds(a: KeySpec, b: KeySpec)
    requires Reordered(KeyValue(a), KeyValue(b))
    ensures a == b
  {
    hide Record;
    KeyNamesGood();
    var x, y := [ByteString(a.keyHash), Text(a.tenantId), Text(a.systemId)], [ByteString(b.keyHash), Text(b.tenantId), Text(b.systemId)];
    RecordReordered(KeyNames(), x, y);
    assert Reordered(x[0], y[0]) && Reordered(x[1], y[1]) && Reordered(x[2], y[2]);
  }

  // ----- The content -----

  function ContentFields(c: Content): (vs: seq<Value>)
    ensures |vs| == 3
  {
    [Text(c.gatewayVersion), Array(SystemValues(c.systems)), Array(KeyValues(c.keys))]
  }

  lemma ContentSound(c: Content)
    ensures WellSized(ContentValue(c)) && !Refused(ContentValue(c))
  {
    hide Refused, WellSized, SystemValue, KeyValue;
    ContentNamesGood();
    forall i | 0 <= i < |c.systems|
      ensures WellSized(SystemValues(c.systems)[i]) && !Refused(SystemValues(c.systems)[i])
    {
      SystemSound(c.systems[i]);
    }
    forall i | 0 <= i < |c.keys|
      ensures WellSized(KeyValues(c.keys)[i]) && !Refused(KeyValues(c.keys)[i])
    {
      KeySound(c.keys[i]);
    }
    ArrayAccepted(SystemValues(c.systems));
    ArrayAccepted(KeyValues(c.keys));
    PlainAccepted(Text(c.gatewayVersion));
    RecordAccepted(ContentNames(), ContentFields(c));
  }

  /** Every content has a hash. */
  lemma ContentHashTotal(H: HashFn, c: Content)
    ensures ContentHash(H, c).Ok?
  {
    hide Refused, WellSized, ContentValue;
    ContentSound(c);
    RefusedIffError(ContentValue(c));
  }

  function HashOf(H: HashFn, c: Content): (r: Hash32)
    ensures ContentHash(H, c) == Ok(r)
  {
    ContentHashTotal(H, c);
    ContentHash(H, c).value
  }

  lemma SystemsBind(a: seq<SystemSpec>, b: seq<SystemSpec>)
    requires Reordered(Array(SystemValues(a)), Array(SystemValues(b)))
    ensures a == b
  {
    hide SystemValue;
    forall i | 0 <= i < |a|
      ensures a[i] == b[i]
    {
      assert Reordered(SystemValues(a)[i], SystemValues(b)[i]);
      SystemBinds(a[i], b[i]);
    }
  }

  lemma KeysBind(a: seq<KeySpec>, b: seq<KeySpec>)
    requires Reordered(Array(KeyValues(a)), Array(KeyValues(b)))
    ensures a == b
  {
    hide KeyValue;
    forall i | 0 <= i < |a|
      ensures a[i] == b[i]
    {
      assert Reordered(KeyValues(a)[i], KeyValues(b)[i]);
      KeyBinds(a[i], b[i]);
    }
  }

  lemma ContentValueBinds(a: Content, b: Content)
    requires Reordered(ContentValue(a), ContentValue(b))
    ensures a == b
  {
    hide Record, SystemValues, KeyValues;
    ContentNamesGood();
    var x, y := ContentFields(a), ContentFields(b);
    RecordReordered(ContentNames(), x, y);
    assert Reordered(x[0], y[0]) && Reordered(x[1], y[1]) && Reordered(x[2], y[2]);
    SystemsBind(a.systems, b.systems);
    KeysBind(a.keys, b.keys);
  }

  /** Equal content hashes mean equal content, down to every route and matcher,
      or the two encodings collide. */
  lemma ContentHashBinds(H: HashFn, a: Content, b: Content)
    requires ContentHash(H, a) == ContentHash(H, b)
    ensures a == b || CollisionIn(H, ContentInputs(a) + ContentInputs(b))
  {
    hide Refused, WellSized, ContentValue, Reordered;
    ContentHashTotal(H, a);
    ContentHashTotal(H, b);
    var x, y := Encode(ContentValue(a)).value, Encode(ContentValue(b)).value;
    assert x in ContentInputs(a) + ContentInputs(b) && y in ContentInputs(a) + ContentInputs(b);
    if x == y {
      ContentSound(a);
      ContentSound(b);
      EncodingUnique(ContentValue(a), ContentValue(b));
      ContentValueBinds(a, b);
    }
  }
}
