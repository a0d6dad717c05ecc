/** The builder as one replica runs it, on a registry and a bus that may fail. */
module Builders {
  import opened Wrappers
  import opened Hashing
  import opened Canon
  import opened Config
  import opened Contents
  import opened Snapshots
  import P = Publishing

  datatype ControlError = Db | BusDown | Invalid

  datatype Outcome = Bumped(generation: nat) | Unchanged(generation: nat)

  /** Rows come back in any order; generations are allocated under a lock. */
  class Registry {
    var rows: P.Rows
    var log: seq<Hash32>

    constructor (rows: P.Rows)
      ensures this.rows == rows && log == []
    {
      this.rows, log := rows, [];
    }

    method Systems() returns (r: Result<List<SystemSpec>, ControlError>)
      ensures r.Ok? ==> multiset(r.value) == multiset(rows.systems)
    {
      if * {
        return Err(Db);
      }
      var backwards: List<SystemSpec> := Reversed(rows.systems);
      if * {
        return Ok(backwards);
      }
      r := Ok(rows.systems);
    }

    method Keys() returns (r: Result<List<KeySpec>, ControlError>)
      ensures r.Ok? ==> multiset(r.value) == multiset(rows.keys)
    {
      if * {
        return Err(Db);
      }
      var backwards: List<KeySpec> := Reversed(rows.keys);
      if * {
        return Ok(backwards);
      }
      r := Ok(rows.keys);
    }

    method Published() returns (r: Result<Option<(nat, Hash32)>, ControlError>)
      ensures r.Ok? ==> r.value == P.Published(log)
    {
      if * {
        return Err(Db);
      }
      r := Ok(P.Published(log));
    }

    /** A commit that reports failure may have landed all the same. */
    method AllocateGeneration(contentHash: Hash32) returns (r: Result<nat, ControlError>)
      modifies this`log
      ensures match r
              case Ok(g) => log == old(log) + [contentHash] && g == |log| <= P.LAST_GENERATION
              case Err(_) => log == old(log) || (log == old(log) + [contentHash] && |log| <= P.LAST_GENERATION)
    {
      if |log| + 1 > P.LAST_GENERATION {
        return Err(Db);
      }
      if * {
        return Err(Db);
      }
      log := log + [contentHash];
      if * {
        return Err(Db);
      }
      r := Ok(|log|);
    }
  }

  function Reversed<T>(s: seq<T>): (r: seq<T>)
    ensures multiset(r) == multiset(s) && |r| == |s|
  {
    if s == [] then []
    else
      assert s == [s[0]] + s[1..];
      Reversed(s[1..]) + [s[0]]
  }

  class SnapshotBus {
    var sent: seq<Envelope>

    constructor ()
      ensures sent == []
    {
      sent := [];
    }

    /** A send that reports failure may have arrived all the same. */
    method Publish(e: Envelope) returns (r: Result<(), ControlError>)
      modifies this
      ensures sent == old(sent) + [e] || (r.Err? && sent == old(sent))
    {
      if * {
        return Err(BusDown);
      }
      sent := sent + [e];
      if * {
        return Err(BusDown);
      }
      r := Ok(());
    }
  }

  class SnapshotBuilder {
    const registry: Registry
    const bus: SnapshotBus
    const gatewayVersion: Str

    constructor (registry: Registry, bus: SnapshotBus, gatewayVersion: Str)
      ensures this.registry == registry && this.bus == bus && this.gatewayVersion == gatewayVersion
    {
      this.registry, this.bus, this.gatewayVersion := registry, bus, gatewayVersion;
    }

    /** The registry's rows as they are. */
    ghost function Raw(): Content
      reads registry
    {
      Content(gatewayVersion, registry.rows.systems, registry.rows.keys)
    }

    ghost function View(): P.World
      reads registry, bus
    {
      P.World(registry.rows, registry.log, map[], bus.sent)
    }

    /** The builder is replica 0 of the machine. */
    ghost function Versions(): nat -> Str {
      _ => gatewayVersion
    }

    /** Build and validate, in canonical order.  Refused as invalid only if the
        rows are not fit to be served. */
    method BuildSpec(H: HashFn) returns (r: Result<Spec, ControlError>)
      ensures match r
              case Ok(spec) => spec == Spec(0, Ordered(Raw())) && Fit(Raw()) && Fit(spec.content)
              case Err(x) => x == Invalid ==> !Fit(Raw())
    {
      hide Fit, Ordered, Indexes, IndexesKeys, Built;
      var systems := registry.Systems();
      if systems.Err? {
        return Err(Db);
      }
      var keys := registry.Keys();
      if keys.Err? {
        return Err(Db);
      }
      var read := Content(gatewayVersion, systems.value, keys.value);
      var spec := Spec(0, Ordered(read));
      OrderDoesNotMatter(Raw(), read);
      OrderDoesNotMatter(read, Raw());
      BuiltIff(H, spec);
      var built := Build(H, spec);
      r := if built.Ok? then Ok(spec) else Err(Invalid);
    }

    /** Publish only what changed.  A generation is allocated before the send and
        is not given back if the send fails. */
    method Publish(H: HashFn) returns (r: Result<Outcome, ControlError>, ghost stage: nat, ghost arrives: bool)
      modifies registry`log, bus
      ensures stage <= 5 && View() == Stages(H, Versions(), old(View()), stage, arrives).(replicas := map[])
      ensures r.Ok? ==> stage == if r.value.Bumped? then 5 else 3
      ensures registry.rows == old(registry.rows)
      ensures
        var content, before, log := Ordered(old(Raw())), old(registry.log), registry.log;
        match r
        case Ok(Bumped(g)) =>
          && log == before + [HashOf(H, content)] && g == |log| <= P.LAST_GENERATION
          && (before != [] ==> before[|before| - 1] != HashOf(H, content))
          && bus.sent == old(bus.sent) + [Seal(Spec(g, content), HashOf(H, content))]
          && Install(H, Seal(Spec(g, content), HashOf(H, content))).Ok?
        case Ok(Unchanged(g)) =>
          && log == before && bus.sent == old(bus.sent)
          && g == |log| > 0 && log[g - 1] == HashOf(H, content)
        case Err(_) =>
          || (log == before && bus.sent == old(bus.sent))
          || (log == before + [HashOf(H, content)] && |log| <= P.LAST_GENERATION
              && (bus.sent == old(bus.sent) || bus.sent == old(bus.sent) + [Seal(Spec(|log|, content), HashOf(H, content))]))
    {
      hide Fit, Ordered, ContentHash, HashOf, Install, Indexes, IndexesKeys, Stages;
      ghost var before := View();
      stage, arrives := 0, false;
      NoStage(H, Versions(), before, arrives);
      var built := BuildSpec(H);
      if built.Err? {
        return Err(built.error), stage, arrives;
      }
      StagesAre(H, Versions(), before, true);
      StagesAre(H, Versions(), before, false);
      var spec := built.value;
      var hash := HashOf(H, spec.content);
      var published := registry.Published();
      if published.Err? {
        return Err(published.error), stage, arrives;
      }
      if published.value.Some? && published.value.value.1 == hash {
        return Ok(Unchanged(published.value.value.0)), 3, arrives;
      }
      var minted := registry.AllocateGeneration(hash);
      stage := if registry.log == before.log then 0 else 4;
      if minted.Err? {
        return Err(minted.error), stage, arrives;
      }
      spec := spec.(generation := minted.value);
      InstalledIff(H, Seal(spec, hash));
      var sent := bus.Publish(Seal(spec, hash));
      stage, arrives := 5, bus.sent != before.sent;
      if sent.Err? {
        return Err(sent.error), stage, arrives;
      }
      r := Ok(Bumped(minted.value));
    }

    /** What the read API serves: the published content under its generation, or
        nothing at all. */
    method Current(H: HashFn) returns (r: Result<Envelope, ControlError>)
      requires |registry.log| <= P.LAST_GENERATION
      ensures r.Ok? ==>
                var content, log := Ordered(Raw()), registry.log;
                && log != [] && log[|log| - 1] == HashOf(H, content)
                && r.value == Seal(Spec(|log|, content), log[|log| - 1])
                && Install(H, r.value).Ok?
                && P.Step(H, Versions(), Stages(H, Versions(), View(), 2, false), P.Serve(0)).(replicas := map[]) ==
                   View().(sent := bus.sent + [r.value])
    {
      hide Fit, Ordered, ContentHash, HashOf, Install, Indexes, IndexesKeys, Stages;
      var built := BuildSpec(H);
      if built.Err? {
        return Err(built.error);
      }
      var spec := built.value;
      var hash := HashOf(H, spec.content);
      var published := registry.Published();
      if published.Err? {
        return Err(published.error);
      }
      if published.value.None? || published.value.value.1 != hash {
        return Err(Invalid);
      }
      spec := spec.(generation := published.value.value.0);
      InstalledIff(H, Seal(spec, hash));
      ReadStage(H, Versions(), View(), false);
      r := Ok(Seal(spec, hash));
    }
  }

  /** The first `n` steps of one publish by replica 0. */
  ghost function Stages(H: HashFn, versions: nat -> Str, w: P.World, n: nat, arrives: bool): P.World
    requires n <= 5
  {
    if n == 0 then w
    else
      var b := Stages(H, versions, w, n - 1, arrives);
      if n == 1 then P.Step(H, versions, b, P.ReadSystems(0, w.rows.systems))
      else if n == 2 then P.Step(H, versions, b, P.ReadKeys(0, w.rows.keys))
      else if n == 3 then P.Step(H, versions, b, P.Compare(0))
      else if n == 4 then P.Step(H, versions, b, P.Allocate(0))
      else P.Step(H, versions, b, P.Send(0, arrives))
  }

  lemma NoStage(H: HashFn, versions: nat -> Str, w: P.World, arrives: bool)
    ensures Stages(H, versions, w, 0, arrives) == w
  {
  }

  lemma ReadStages(H: HashFn, versions: nat -> Str, w: P.World, arrives: bool)
    ensures Stages(H, versions, w, 1, arrives) == P.Step(H, versions, w, P.ReadSystems(0, w.rows.systems))
    ensures Stages(H, versions, w, 2, arrives) == P.Step(H, versions, Stages(H, versions, w, 1, arrives), P.ReadKeys(0, w.rows.keys))
  {
    hide P.Step;
    NoStage(H, versions, w, arrives);
  }

  lemma WriteStages(H: HashFn, versions: nat -> Str, w: P.World, arrives: bool)
    ensures Stages(H, versions, w, 3, arrives) == P.Step(H, versions, Stages(H, versions, w, 2, arrives), P.Compare(0))
    ensures Stages(H, versions, w, 4, arrives) == P.Step(H, versions, Stages(H, versions, w, 3, arrives), P.Allocate(0))
    ensures Stages(H, versions, w, 5, arrives) == P.Step(H, versions, Stages(H, versions, w, 4, arrives), P.Send(0, arrives))
  {
    hide P.Step;
  }

  /** `w` with replica 0, and no other, at `phase`. */
  ghost function Only(w: P.World, phase: P.Phase): P.World {
    w.(replicas := map[0 := phase])
  }

  lemma OnlyGoes(w: P.World, phase: P.Phase, to: P.Phase)
    ensures Only(w, phase).At(0) == phase && Only(w, phase).Goto(0, to) == Only(w, to)
  {
    assert map[0 := phase][0 := to] == map[0 := to];
  }

  /** After the reads the replica holds the content in canonical order. */
  lemma ReadStage(H: HashFn, versions: nat -> Str, w: P.World, arrives: bool)
    requires w.replicas == map[] && Fit(Content(versions(0), w.rows.systems, w.rows.keys))
    ensures
      var content := Ordered(Content(versions(0), w.rows.systems, w.rows.keys));
      Stages(H, versions, w, 2, arrives) == Only(w, P.Ready(content, HashOf(H, content)))
  {
    hide Fit, Ordered, ContentHash, HashOf, P.Assembled, Stages;
    P.ReadingsAgree(H, versions(0), w.rows, w.rows.systems, w.rows.keys);
    ReadStages(H, versions, w, arrives);
    var seen := P.SawSystems(w.rows.systems);
    assert w.At(0) == P.Idle;
    assert w.replicas[0 := seen] == map[0 := seen];
    assert w.Goto(0, seen) == Only(w, seen);
    OnlyGoes(w, seen, P.Assembled(H, versions(0), w.rows.systems, w.rows.keys));
  }

  /** What a publish of fit rows comes to, stage by stage: with the content's hash
      published last, comparing ends it; otherwise allocating appends the hash, and
      what is sent or lost is the envelope of that generation. */
  lemma StagesAre(H: HashFn, versions: nat -> Str, w: P.World, arrives: bool)
    requires w.replicas == map[] && Fit(Content(versions(0), w.rows.systems, w.rows.keys))
    ensures
      var content := Ordered(Content(versions(0), w.rows.systems, w.rows.keys));
      var hash := HashOf(H, content);
      && (w.log != [] && w.log[|w.log| - 1] == hash ==> Stages(H, versions, w, 3, arrives).(replicas := map[]) == w)
      && ((w.log == [] || w.log[|w.log| - 1] != hash) && |w.log| < P.LAST_GENERATION ==>
            && Stages(H, versions, w, 4, arrives).(replicas := map[]) == w.(log := w.log + [hash])
            && Stages(H, versions, w, 5, arrives).(replicas := map[]) ==
               w.(log := w.log + [hash],
                  sent := if arrives then w.sent + [Seal(Spec(|w.log| + 1, content), hash)] else w.sent))
  {
    hide Fit, Ordered, ContentHash, HashOf, P.Assembled, Stages;
    var content := Ordered(Content(versions(0), w.rows.systems, w.rows.keys));
    var hash := HashOf(H, content);
    ReadStage(H, versions, w, arrives);
    WriteStages(H, versions, w, arrives);
    WrittenAre(H, versions, w, content, hash, arrives);
  }

  /** The same from the point where the replica is ready with `content`. */
  lemma WrittenAre(H: HashFn, versions: nat -> Str, w: P.World, content: Content, hash: Hash32, arrives: bool)
    requires w.replicas == map[]
    ensures
      var three := P.Step(H, versions, Only(w, P.Ready(content, hash)), P.Compare(0));
      var four := P.Step(H, versions, three, P.Allocate(0));
      if w.log != [] && w.log[|w.log| - 1] == hash then three.(replicas := map[]) == w
      else |w.log| < P.LAST_GENERATION ==>
             && four.(replicas := map[]) == w.(log := w.log + [hash])
             && P.Step(H, versions, four, P.Send(0, arrives)).(replicas := map[]) ==
                w.(log := w.log + [hash],
                   sent := if arrives then w.sent + [Seal(Spec(|w.log| + 1, content), hash)] else w.sent)
  {
    hide P.Assembled, Seal;
    var ready, changed := P.Ready(content, hash), P.Changed(content, hash);
    OnlyGoes(w, ready, changed);
    OnlyGoes(w, ready, P.Idle);
    if (w.log == [] || w.log[|w.log| - 1] != hash) && |w.log| < P.LAST_GENERATION {
      var logged := w.(log := w.log + [hash]);
      var minted := P.Allocated(Spec(|w.log| + 1, content), hash);
      OnlyGoes(logged, changed, minted);
      OnlyGoes(logged, minted, P.Idle);
      assert P.Step(H, versions, Only(w, ready), P.Compare(0)) == Only(w, changed);
      assert Only(w, changed).(log := w.log + [hash]) == Only(logged, changed);
      assert P.Step(H, versions, Only(w, changed), P.Allocate(0)) == Only(logged, minted);
    }
  }
}
