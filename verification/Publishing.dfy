/**
 * Publication: several control-plane replicas building snapshots from one
 * registry, allocating generations under its lock, and sending envelopes on a
 * bus that may lose them.
 */
module Publishing {
  import opened Wrappers
  import opened Hashing
  import opened Canon
  import opened Config
  import opened Contents
  import opened Snapshots

  datatype Rows = Rows(systems: List<SystemSpec>, keys: List<KeySpec>)

  /** How far a replica has got.  `content` is in canonical order. */
  datatype Phase =
    | Idle
    | SawSystems(systems: List<SystemSpec>)
    | Ready(content: Content, hash: Hash32)
    | Changed(content: Content, hash: Hash32)
    | Allocated(spec: Spec, hash: Hash32)

  /** `log[g - 1]` is the hash generation `g` was allocated for; `sent` is every
      envelope that has left a replica. */
  datatype World = World(rows: Rows, log: seq<Hash32>, replicas: map<nat, Phase>, sent: seq<Envelope>) {
    function At(replica: nat): Phase {
      if replica in replicas then replicas[replica] else Idle
    }

    function Goto(replica: nat, phase: Phase): World {
      this.(replicas := replicas[replica := phase])
    }
  }

  datatype Action =
    | Edit(rows: Rows)
    | ReadSystems(replica: nat, systems: List<SystemSpec>)  // in whatever order the store returns them
    | ReadKeys(replica: nat, keys: List<KeySpec>)
    | Compare(replica: nat)  // publish reads what was published last
    | Allocate(replica: nat)
    | Send(replica: nat, arrives: bool)
    | Serve(replica: nat)  // the read API answers a poll
    | Abandon(replica: nat)

  /** Generations are stored as signed 64-bit numbers. */
  const LAST_GENERATION: nat := 0x7FFF_FFFF_FFFF_FFFF

  /** What a replica makes of the rows it read. */
  function Assembled(H: HashFn, gatewayVersion: Str, systems: List<SystemSpec>, keys: List<KeySpec>): Phase {
    var content := Ordered(Content(gatewayVersion, systems, keys));
    match Built(H, Spec(0, content))
    case Err(_) => Idle
    case Ok(snapshot) => Ready(content, snapshot.contentHash)
  }

  function Published(log: seq<Hash32>): Option<(nat, Hash32)> {
    if log == [] then None else Some((|log|, log[|log| - 1]))
  }

  ghost function Step(H: HashFn, versions: nat -> Str, w: World, a: Action): World {
    match a
    case Edit(rows) => w.(rows := rows)
    case ReadSystems(r, systems) =>
      if w.At(r).Idle? && multiset(systems) == multiset(w.rows.systems) then w.Goto(r, SawSystems(systems)) else w
    case ReadKeys(r, keys) =>
      if w.At(r).SawSystems? && multiset(keys) == multiset(w.rows.keys) then
        w.Goto(r, Assembled(H, versions(r), w.At(r).systems, keys))
      else w
    case Compare(r) =>
      (match w.At(r)
       case Ready(content, hash) =>
         var published := Published(w.log);
         if published.Some? && published.value.1 == hash then w.Goto(r, Idle) else w.Goto(r, Changed(content, hash))
       case _ => w)
    case Allocate(r) =>
      (match w.At(r)
       case Changed(content, hash) =>
         if |w.log| + 1 > LAST_GENERATION then w.Goto(r, Idle)
         else w.(log := w.log + [hash]).Goto(r, Allocated(Spec(|w.log| + 1, content), hash))
       case _ => w)
    case Send(r, arrives) =>
      (match w.At(r)
       case Allocated(spec, hash) => w.(sent := if arrives then w.sent + [Seal(spec, hash)] else w.sent).Goto(r, Idle)
       case _ => w)
    case Serve(r) =>
      (match w.At(r)
       case Ready(content, hash) =>
         var published := Published(w.log);
         if published.Some? && published.value.1 == hash && published.value.0 <= LAST_GENERATION then
           w.(sent := w.sent + [Seal(Spec(published.value.0, content), hash)]).Goto(r, Idle)
         else w.Goto(r, Idle)
       case _ => w)
    case Abandon(r) => w.Goto(r, Idle)
  }

  ghost function Run(H: HashFn, versions: nat -> Str, rows: Rows, actions: seq<Action>): World {
    if actions == [] then World(rows, [], map[], [])
    else Step(H, versions, Run(H, versions, rows, actions[..|actions| - 1]), actions[|actions| - 1])
  }

  // ----- What every run keeps -----

  /** Fit content under its own hash. */
  ghost predicate Good(H: HashFn, content: Content, hash: Hash32) {
    ContentHash(H, content) == Ok(hash) && Fit(content)
  }

  /** The generation was allocated for this very hash. */
  ghost predicate Named(H: HashFn, log: seq<Hash32>, spec: Spec, hash: Hash32) {
    1 <= spec.generation <= |log| && log[spec.generation - 1] == hash && Good(H, spec.content, hash)
  }

  ghost predicate PhaseSound(H: HashFn, log: seq<Hash32>, p: Phase) {
    match p
    case Ready(content, hash) => Good(H, content, hash)
    case Changed(content, hash) => Good(H, content, hash)
    case Allocated(spec, hash) => Named(H, log, spec, hash)
    case _ => true
  }

  ghost predicate EnvelopeSound(H: HashFn, log: seq<Hash32>, e: Envelope) {
    e.generation == e.spec.generation && Named(H, log, e.spec, e.contentHash)
  }

  ghost predicate WorldSound(H: HashFn, w: World) {
    && |w.log| <= LAST_GENERATION
    && (forall r :: PhaseSound(H, w.log, w.At(r)))
    && (forall e | e in w.sent :: EnvelopeSound(H, w.log, e))
  }

  lemma AssembledSound(H: HashFn, gatewayVersion: Str, systems: List<SystemSpec>, keys: List<KeySpec>, log: seq<Hash32>)
    ensures PhaseSound(H, log, Assembled(H, gatewayVersion, systems, keys))
  {
    hide Built, ContentHash, Fit, Ordered, Indexes, IndexesKeys;
    BuiltIff(H, Spec(0, Ordered(Content(gatewayVersion, systems, keys))));
  }

  lemma GotoKeepsSound(H: HashFn, w: World, r: nat, p: Phase)
    requires WorldSound(H, w) && PhaseSound(H, w.log, p)
    ensures WorldSound(H, w.Goto(r, p))
  {
    hide PhaseSound, EnvelopeSound;
    var w' := w.Goto(r, p);
    forall q
      ensures PhaseSound(H, w'.log, w'.At(q))
    {
      assert PhaseSound(H, w.log, w.At(q));
    }
  }

  lemma LogKeepsSound(H: HashFn, w: World, hash: Hash32)
    requires WorldSound(H, w) && |w.log| < LAST_GENERATION
    ensures WorldSound(H, w.(log := w.log + [hash]))
  {
    hide Good;
    var w' := w.(log := w.log + [hash]);
    forall q
      ensures PhaseSound(H, w'.log, w'.At(q))
    {
      assert PhaseSound(H, w.log, w.At(q));
    }
  }

  lemma SentKeepsSound(H: HashFn, w: World, e: Envelope)
    requires WorldSound(H, w) && EnvelopeSound(H, w.log, e)
    ensures WorldSound(H, w.(sent := w.sent + [e]))
  {
    hide PhaseSound, EnvelopeSound;
    var w' := w.(sent := w.sent + [e]);
    forall q
      ensures PhaseSound(H, w'.log, w'.At(q))
    {
      assert PhaseSound(H, w.log, w.At(q));
    }
  }

  lemma EditKeepsSound(H: HashFn, w: World, rows: Rows)
    requires WorldSound(H, w)
    ensures WorldSound(H, w.(rows := rows))
  {
    hide PhaseSound, EnvelopeSound;
    var w' := w.(rows := rows);
    forall q
      ensures PhaseSound(H, w'.log, w'.At(q))
    {
      assert PhaseSound(H, w.log, w.At(q));
    }
  }

  lemma StepKeepsSound(H: HashFn, versions: nat -> Str, w: World, a: Action)
    requires WorldSound(H, w)
    ensures WorldSound(H, Step(H, versions, w, a))
    ensures w.log <= Step(H, versions, w, a).log && w.sent <= Step(H, versions, w, a).sent
  {
    hide WorldSound, Good, Assembled;
    match a {
      case Edit(rows) => EditKeepsSound(H, w, rows);
      case ReadSystems(r, systems) => GotoKeepsSound(H, w, r, SawSystems(systems));
      case ReadKeys(r, keys) =>
        if w.At(r).SawSystems? {
          AssembledSound(H, versions(r), w.At(r).systems, keys, w.log);
          GotoKeepsSound(H, w, r, Assembled(H, versions(r), w.At(r).systems, keys));
        }
      case Abandon(r) => GotoKeepsSound(H, w, r, Idle);
      case _ => ReplicaStepKeepsSound(H, versions, w, a);
    }
  }

  lemma ReplicaStepKeepsSound(H: HashFn, versions: nat -> Str, w: World, a: Action)
    requires WorldSound(H, w) && (a.Compare? || a.Allocate? || a.Send? || a.Serve?)
    ensures WorldSound(H, Step(H, versions, w, a))
    ensures w.log <= Step(H, versions, w, a).log && w.sent <= Step(H, versions, w, a).sent
  {
    hide Good;
    var r := a.replica;
    assert PhaseSound(H, w.log, w.At(r));
    assert |w.log| <= LAST_GENERATION;
    hide WorldSound;
    GotoKeepsSound(H, w, r, Idle);
    match w.At(r) {
      case Ready(content, hash) =>
        GotoKeepsSound(H, w, r, Changed(content, hash));
        if a.Serve? && w.log != [] && w.log[|w.log| - 1] == hash {
          var e := Seal(Spec(|w.log|, content), hash);
          SentKeepsSound(H, w, e);
          GotoKeepsSound(H, w.(sent := w.sent + [e]), r, Idle);
        }
      case Changed(content, hash) =>
        if a.Allocate? && |w.log| < LAST_GENERATION {
          LogKeepsSound(H, w, hash);
          GotoKeepsSound(H, w.(log := w.log + [hash]), r, Allocated(Spec(|w.log| + 1, content), hash));
        }
      case Allocated(spec, hash) =>
        if a.Send? && a.arrives {
          SentKeepsSound(H, w, Seal(spec, hash));
          GotoKeepsSound(H, w.(sent := w.sent + [Seal(spec, hash)]), r, Idle);
        }
      case _ =>
    }
  }

  lemma {:induction false} RunSound(H: HashFn, versions: nat -> Str, rows: Rows, actions: seq<Action>)
    ensures WorldSound(H, Run(H, versions, rows, actions))
  {
    hide Step, Good;
    if actions != [] {
      RunSound(H, versions, rows, actions[..|actions| - 1]);
      StepKeepsSound(H, versions, Run(H, versions, rows, actions[..|actions| - 1]), actions[|actions| - 1]);
    }
  }

  /** A generation names one content.  However replicas, edits, failed sends and
      polls interleave, two envelopes of one generation carry one content hash,
      both install at the gateway under that generation and hash, and their
      contents are the same or the encodings collide. */
  lemma GenerationNamesContent(H: HashFn, versions: nat -> Str, rows: Rows, actions: seq<Action>, d: Envelope, e: Envelope)
    requires d in Run(H, versions, rows, actions).sent && e in Run(H, versions, rows, actions).sent
    requires d.generation == e.generation
    ensures d.contentHash == e.contentHash
    ensures Install(H, d).Ok? && Install(H, e).Ok?
    ensures Install(H, d).value.generation == Install(H, e).value.generation == e.generation
    ensures Install(H, d).value.contentHash == Install(H, e).value.contentHash == e.contentHash
    ensures d.spec.content == e.spec.content || CollisionIn(H, ContentInputs(d.spec.content) + ContentInputs(e.spec.content))
  {
    hide Run, ContentHash, Fit, Install, ContentInputs, Indexes, IndexesKeys;
    RunSound(H, versions, rows, actions);
    assert EnvelopeSound(H, Run(H, versions, rows, actions).log, d) && EnvelopeSound(H, Run(H, versions, rows, actions).log, e);
    InstalledIff(H, d);
    InstalledIff(H, e);
    InstalledContentBinds(H, d, e);
  }

  // ----- Quiet registries and lost messages -----

  /** Two readings of the same fit rows come to the same, whatever order the
      store returned them in. */
  lemma ReadingsAgree(H: HashFn, gatewayVersion: Str, rows: Rows, systems: List<SystemSpec>, keys: List<KeySpec>)
    requires multiset(systems) == multiset(rows.systems) && multiset(keys) == multiset(rows.keys)
    requires Fit(Content(gatewayVersion, rows.systems, rows.keys))
    ensures var content := Ordered(Content(gatewayVersion, rows.systems, rows.keys));
            && ContentHash(H, content).Ok?
            && Assembled(H, gatewayVersion, systems, keys) == Ready(content, ContentHash(H, content).value)
  {
    hide Built, ContentHash, Fit, Ordered, Indexes, IndexesKeys;
    var a, b := Content(gatewayVersion, rows.systems, rows.keys), Content(gatewayVersion, systems, keys);
    OrderDoesNotMatter(a, b);
    OrderDoesNotMatter(a, a);
    BuiltIff(H, Spec(0, Ordered(b)));
  }

  /** Build again after generation `|log|` was published for the same rows: the
      comparison finds nothing changed, so nothing is allocated and nothing sent,
      even if the envelope of that generation was lost on the bus; but the read
      API serves exactly that envelope to a poll. */
  lemma LostSendIsServedNotRepeated(
    H: HashFn, versions: nat -> Str, w: World, r: nat, hash: Hash32, systems: List<SystemSpec>, keys: List<KeySpec>)
    requires WorldSound(H, w) && w.log != [] && w.log[|w.log| - 1] == hash
    requires var content := Ordered(Content(versions(r), w.rows.systems, w.rows.keys));
             w.At(r) == Allocated(Spec(|w.log|, content), hash)
    requires multiset(systems) == multiset(w.rows.systems) && multiset(keys) == multiset(w.rows.keys)
    ensures
      var lost := Step(H, versions, w, Send(r, false));
      var again := Step(H, versions, Step(H, versions, lost, ReadSystems(r, systems)), ReadKeys(r, keys));
      && Step(H, versions, again, Compare(r)).sent == w.sent
      && Step(H, versions, again, Compare(r)).log == w.log
      && Step(H, versions, again, Compare(r)).At(r) == Idle
      && Step(H, versions, again, Serve(r)).sent == w.sent + [Seal(w.At(r).spec, hash)]
  {
    hide ContentHash, Fit, Ordered, Assembled;
    assert PhaseSound(H, w.log, w.At(r));
    assert |w.log| <= LAST_GENERATION;
    hide WorldSound;
    var rows := Content(versions(r), w.rows.systems, w.rows.keys);
    OrderDoesNotMatter(rows, rows);
    ReadingsAgree(H, versions(r), w.rows, systems, keys);
    var lost := Step(H, versions, w, Send(r, false));
    assert lost == w.Goto(r, Idle);
    var seen := Step(H, versions, lost, ReadSystems(r, systems));
    assert seen == lost.Goto(r, SawSystems(systems));
    var again := Step(H, versions, seen, ReadKeys(r, keys));
    assert again.At(r) == Ready(Ordered(rows), hash) && again.log == w.log && again.sent == w.sent;
  }
}
