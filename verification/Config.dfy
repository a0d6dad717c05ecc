/**
 * Configuration snapshots: the wire form, validation, canonical order, the
 * content hash and the envelope.
 */
module Config {
  import opened Wrappers
  import opened Hashing
  import opened Canon
  import opened Events

  /** A list whose length is a machine word. */
  type List<T> = s: seq<T> | |s| < 0x1_0000_0000_0000_0000 witness []

  datatype RiskClass = Unclassified | Minimal | Transparency | High

  datatype Matcher = Any | Path(path: Str) | ModelAlias(alias: Str) | Header(name: Str, value: Str) | All(matchers: List<Matcher>)

  datatype RouteSpec = RouteSpec(
    matcher: Matcher, modelId: Str, modelVersion: Str, promptId: Str, promptVersion: Str, promptHash: Hash32)

  datatype SystemSpec = SystemSpec(
    systemId: Str, systemVersion: Str, ifuVersion: Str, riskClass: RiskClass, policyId: Str, policyVersion: Str,
    routes: List<RouteSpec>, defaultRoute: u64)

  datatype KeySpec = KeySpec(keyHash: Hash32, tenantId: Str, systemId: Str)

  datatype Content = Content(gatewayVersion: Str, systems: List<SystemSpec>, keys: List<KeySpec>)

  /** `content` is everything but the generation: what the hash is taken over. */
  datatype Spec = Spec(generation: u64, content: Content)

  datatype Binding = Binding(tenantId: Str, systemId: Str)

  datatype Snapshot = Snapshot(
    generation: u64, contentHash: Hash32, gatewayVersion: Str, systems: map<Str, SystemSpec>, keys: map<Hash32, Binding>)

  datatype SnapshotError =
    | NoRoutes(systemId: Str)
    | BadDefaultRoute(systemId: Str)
    | DuplicateSystem(systemId: Str)
    | KeyBindsUnknownSystem(systemId: Str)
    | DuplicateKey(keyHash: Hash32)
    | Unencodable(reason: CanonError)
    | EnvelopeMismatch

  // ----- Encoding -----

  function RiskName(c: RiskClass): Str {
    match c
    case Unclassified => Ascii("unclassified")
    case Minimal => Ascii("minimal")
    case Transparency => Ascii("transparency")
    case High => Ascii("high")
  }

  function HeaderNames(): seq<string> { ["name", "value"] }

  function RouteNames(): seq<string> {
    ["matcher", "model_id", "model_version", "prompt_id", "prompt_version", "prompt_hash"]
  }

  function SystemNames(): seq<string> {
    ["system_id", "system_version", "ifu_version", "risk_class", "policy_id", "policy_version", "routes", "default_route"]
  }

  function KeyNames(): seq<string> { ["key_hash", "tenant_id", "system_id"] }

  function ContentNames(): seq<string> { ["gateway_version", "systems", "keys"] }

  /** Distinct short ASCII names. */
  ghost predicate GoodNames(names: seq<string>) {
    && |names| < 256
    && (forall i :: 0 <= i < |names| ==> IsAscii(names[i]) && |names[i]| < 0x1_0000)
    && (forall i, j :: 0 <= i < j < |names| ==> names[i] != names[j])
  }

  lemma HeaderNamesGood()
    ensures GoodNames(HeaderNames())
  {
  }

  lemma RouteNamesGood()
    ensures GoodNames(RouteNames())
  {
  }

  lemma KeyNamesGood()
    ensures GoodNames(KeyNames())
  {
  }

  lemma ContentNamesGood()
    ensures GoodNames(ContentNames())
  {
  }

  lemma SystemNamesGood()
    ensures GoodNames(SystemNames())
  {
  }

  /** A struct by its field names. */
  function Record(names: seq<string>, values: seq<Value>): Value
    requires GoodNames(names) && |names| == |values|
  {
    Struct(Names(names), values)
  }

  /** An enum variant with a payload: a map of one entry. */
  function Variant(name: string, payload: Value): Value
    requires IsAscii(name) && |name| < 0x1_0000
  {
    Map([Entry(Text(Ascii(name)), payload)])
  }

  function MatcherValue(m: Matcher): Value {
    HeaderNamesGood();
    match m
    case Any => Text(Ascii("Any"))
    case Path(p) => Variant("Path", Text(p))
    case ModelAlias(a) => Variant("ModelAlias", Text(a))
    case Header(n, v) => Variant("Header", Record(HeaderNames(), [Text(n), Text(v)]))
    case All(ms) => Variant("All", Array(seq(|ms|, i requires 0 <= i < |ms| => MatcherValue(ms[i]))))
  }

  function RouteValue(r: RouteSpec): Value {
    RouteNamesGood();
    Record(RouteNames(), [MatcherValue(r.matcher), Text(r.modelId), Text(r.modelVersion), Text(r.promptId),
                          Text(r.promptVersion), ByteString(r.promptHash)])
  }

  function RouteValues(rs: seq<RouteSpec>): (r: seq<Value>)
    ensures |r| == |rs|
  {
    seq(|rs|, i requires 0 <= i < |rs| => RouteValue(rs[i]))
  }

  function SystemValue(s: SystemSpec): Value {
    SystemNamesGood();
    Record(SystemNames(), [Text(s.systemId), Text(s.systemVersion), Text(s.ifuVersion), Text(RiskName(s.riskClass)),
                           Text(s.policyId), Text(s.policyVersion), Array(RouteValues(s.routes)), Unsigned(s.defaultRoute)])
  }

  function SystemValues(ss: seq<SystemSpec>): (r: seq<Value>)
    ensures |r| == |ss|
  {
    seq(|ss|, i requires 0 <= i < |ss| => SystemValue(ss[i]))
  }

  function KeyValue(k: KeySpec): Value {
    KeyNamesGood();
    Record(KeyNames(), [ByteString(k.keyHash), Text(k.tenantId), Text(k.systemId)])
  }

  function KeyValues(ks: seq<KeySpec>): (r: seq<Value>)
    ensures |r| == |ks|
  {
    seq(|ks|, i requires 0 <= i < |ks| => KeyValue(ks[i]))
  }

  function ContentValue(c: Content): Value {
    ContentNamesGood();
    Record(ContentNames(), [Text(c.gatewayVersion), Array(SystemValues(c.systems)), Array(KeyValues(c.keys))])
  }

  function ContentHash(H: HashFn, c: Content): Result<Hash32, CanonError> {
    match Encode(ContentValue(c))
    case Err(x) => Err(x)
    case Ok(bytes) => Ok(H(bytes))
  }

  ghost function ContentInputs(c: Content): set<Bytes> {
    match Encode(ContentValue(c))
    case Err(_) => {}
    case Ok(bytes) => {bytes}
  }
}
