/**
 * The ingester, its bus and its store as one machine.  The world chooses what
 * each pull delivers, whether the store answers, which acks get through, where a
 * pull is dropped for the heartbeat tick, whether heartbeats are stored and when
 * the process restarts.
 */
module IngestRuns {
  import opened Wrappers
  import opened Hashing
  import opened Canon
  import opened Events
  import opened Chain
  import opened Verify
  import opened VerifyTheorems
  import opened Cursors
  import opened Batches
  import opened BatchTheorems
  import opened Heartbeats
  import opened Cutoffs

  /** A message that does not decode is acked and counted, never ingested. */
  datatype Message = Decodable(event: EmittedEvent) | Undecodable

  function Decoded(messages: seq<Message>): (r: seq<EmittedEvent>)
    ensures |r| <= |messages|
    ensures forall e :: e in r <==> Decodable(e) in messages
  {
    if messages == [] then []
    else
      var m := messages[|messages| - 1];
      Decoded(messages[..|messages| - 1]) + if m.Decodable? then [m.event] else []
  }

  /** `acked` is every event the bus has been told to forget. */
  datatype Sys = Sys(store: Store, writers: Writers, acked: seq<EmittedEvent>)

  datatype Step =
    | Pull(messages: seq<Message>, ambient: seq<Ambient>, stored: bool, acks: nat)
    | Cut(messages: seq<Message>, ambient: seq<Ambient>, landed: bool, acks: nat)  // dropped after as many messages as `ambient`
    | Beats(order: seq<ChainId>, now: i64, stamps: seq<i64>, stored: bool)
    | Restart

  /** Acks go out in order, after the batch, and stop at the first that fails.
      A batch handed back is not acked at all. */
  function Pulled(H: HashFn, nodeId: Str, s: Sys, es: seq<EmittedEvent>, ambient: seq<Ambient>, stored: bool, acks: nat): Sys
    requires |es| == |ambient|
  {
    var b := TakeAll(H, nodeId, s.store, StartBatch(s.writers), es, ambient);
    var (store, writers) := Settled(s.store, b, stored);
    Sys(store, writers,
        if HandedBack(b, stored) || b.outcome.Failed? then s.acked
        else s.acked + es[..if acks <= |es| then acks else |es|])
  }

  /** A pull dropped once `ambient` of its messages were taken.  Its insert comes
      after the last message, its acks after the insert. */
  function CutOff(H: HashFn, nodeId: Str, s: Sys, es: seq<EmittedEvent>, ambient: seq<Ambient>, landed: bool, acks: nat): Sys
    requires |ambient| <= |es|
  {
    var b := TakeAll(H, nodeId, s.store, StartBatch(s.writers), es[..|ambient|], ambient);
    var (store, writers) := CutAt(s.store, b, landed);
    Sys(store, writers,
        if b.outcome.Going? && landed then s.acked + es[..if acks <= |ambient| then acks else |ambient|] else s.acked)
  }

  /** A step the model has no position numbers left for does nothing. */
  ghost predicate Enabled(s: Sys, step: Step) {
    match step
    case Pull(messages, ambient, _, _) => |ambient| == |Decoded(messages)| && Room(s.store, |ambient|)
    case Cut(messages, ambient, landed, _) =>
      |ambient| <= |Decoded(messages)| && (landed ==> |ambient| == |Decoded(messages)|) && Room(s.store, |ambient|)
    case Beats(order, _, stamps, _) => |order| == |stamps| && Room(s.store, |order|)
    case Restart => true
  }

  ghost function Next(H: HashFn, nodeId: Str, s: Sys, step: Step): Sys {
    if !Enabled(s, step) then s
    else
      match step
      case Pull(messages, ambient, stored, acks) => Pulled(H, nodeId, s, Decoded(messages), ambient, stored, acks)
      case Cut(messages, ambient, landed, acks) => CutOff(H, nodeId, s, Decoded(messages), ambient, landed, acks)
      case Beats(order, now, stamps, stored) =>
        var (store, writers) := Beaten(s.store, OfferAll(H, s.writers, order, now, stamps), stored);
        Sys(store, writers, s.acked)
      case Restart => s.(writers := map[])
  }

  /** The step leaves something chained that is not stored: a pull dropped between
      chaining and storing, or heartbeats the store refused. */
  ghost predicate Loses(H: HashFn, nodeId: Str, s: Sys, step: Step) {
    && Enabled(s, step)
    && match step
       case Cut(messages, ambient, landed, _) =>
         Stranded(TakeAll(H, nodeId, s.store, StartBatch(s.writers), Decoded(messages)[..|ambient|], ambient), landed) != []
       case Beats(order, now, stamps, stored) => !stored && OfferAll(H, s.writers, order, now, stamps).written != []
       case _ => false
  }

  ghost function Run(H: HashFn, nodeId: Str, steps: seq<Step>): Sys {
    if steps == [] then Sys(map[], map[], [])
    else Next(H, nodeId, Run(H, nodeId, steps[..|steps| - 1]), steps[|steps| - 1])
  }

  // ----- What a step keeps -----

  /** Every acked event is in its chain. */
  ghost predicate AckedStored(s: Sys) {
    forall e | e in s.acked :: HasId(Of(s.store, e.Chain()), e.eventId)
  }

  ghost predicate SysSound(H: HashFn, s: Sys) {
    Sound(H, s.store, s.writers) && AckedStored(s)
  }

  /** What a restart would find: good rows, and every acked event among them. */
  ghost predicate StoreSound(H: HashFn, s: Sys) {
    SysSound(H, s.(writers := map[]))
  }

  lemma StillThere(store: Store, store': Store, c: ChainId, id: EventId)
    requires Extends(store, store') && HasId(Of(store, c), id)
    ensures HasId(Of(store', c), id)
  {
    var x :| x in Of(store, c) && x.emitted.eventId == id;
    var i :| 0 <= i < |Of(store, c)| && Of(store, c)[i] == x;
    assert Of(store, c) <= Of(store', c);
    assert Of(store', c)[i] == x;
  }

  lemma AckedStillStored(s: Sys, s': Sys)
    requires AckedStored(s) && Extends(s.store, s'.store) && s'.acked == s.acked
    ensures AckedStored(s')
  {
    hide HasId;
    forall e | e in s'.acked
      ensures HasId(Of(s'.store, e.Chain()), e.eventId)
    {
      StillThere(s.store, s'.store, e.Chain(), e.eventId);
    }
  }

  lemma AckedMoreStored(s: Sys, s': Sys, es: seq<EmittedEvent>, k: nat)
    requires AckedStored(s) && Extends(s.store, s'.store) && k <= |es| && s'.acked == s.acked + es[..k]
    requires forall e | e in es :: HasId(Of(s'.store, e.Chain()), e.eventId)
    ensures AckedStored(s')
  {
    hide HasId;
    AckedStillStored(s, s'.(acked := s.acked));
    forall e | e in s'.acked
      ensures HasId(Of(s'.store, e.Chain()), e.eventId)
    {
      if e !in s.acked {
        assert e in es;
      }
    }
  }

  lemma PulledSound(H: HashFn, nodeId: Str, s: Sys, es: seq<EmittedEvent>, ambient: seq<Ambient>, stored: bool, acks: nat)
    requires |es| == |ambient| && Room(s.store, |es|) && SysSound(H, s)
    ensures var s' := Pulled(H, nodeId, s, es, ambient, stored, acks);
            SysSound(H, s') && Extends(s.store, s'.store)
  {
    hide GoodRows, Stands, TakeAll, HasId, Sound, Settled, AckedStored;
    IngestSound(H, nodeId, s.store, s.writers, es, ambient, stored);
    var s' := Pulled(H, nodeId, s, es, ambient, stored, acks);
    var b := TakeAll(H, nodeId, s.store, StartBatch(s.writers), es, ambient);
    if HandedBack(b, stored) {
      AckedStillStored(s, s');
    } else {
      AckedMoreStored(s, s', es, if acks <= |es| then acks else |es|);
    }
  }

  lemma CutOffSound(H: HashFn, nodeId: Str, s: Sys, es: seq<EmittedEvent>, ambient: seq<Ambient>, landed: bool, acks: nat)
    requires |ambient| <= |es| && Room(s.store, |ambient|) && SysSound(H, s)
    ensures var s' := CutOff(H, nodeId, s, es, ambient, landed, acks);
            && (Sound(H, s'.store, s'.writers) <==>
                  Stranded(TakeAll(H, nodeId, s.store, StartBatch(s.writers), es[..|ambient|], ambient), landed) == [])
            && StoreSound(H, s') && Extends(s.store, s'.store)
  {
    hide GoodRows, Stands, TakeAll, HasId, Sound, CutAt, AckedStored, Stranded;
    var n, taken := |ambient|, es[..|ambient|];
    CutSoundIff(H, nodeId, s.store, s.writers, taken, ambient, landed);
    var s' := CutOff(H, nodeId, s, es, ambient, landed, acks);
    if s'.acked == s.acked {
      AckedStillStored(s, s');
    } else {
      var k := if acks <= n then acks else n;
      assert taken[..k] == es[..k];
      AckedMoreStored(s, s', taken, k);
    }
    AckedWhatever(s');
  }

  lemma AckedWhatever(s: Sys)
    ensures AckedStored(s) <==> AckedStored(s.(writers := map[]))
  {
    hide HasId;
  }

  /** From a sound state, a step keeps the invariant exactly if it leaves nothing
      chained that is not stored.  Either way the store is sound and only grows,
      so a restart finds nothing wrong. */
  lemma NextSoundIff(H: HashFn, nodeId: Str, s: Sys, step: Step)
    requires SysSound(H, s)
    ensures
      var s' := Next(H, nodeId, s, step);
      && (SysSound(H, s') <==> !Loses(H, nodeId, s, step))
      && StoreSound(H, s') && Extends(s.store, s'.store)
  {
    hide GoodRows, Stands, HasId, Pulled, OfferAll, Beaten, Room, CutOff, Stranded, AckedStored, Sound, TakeAll;
    var s' := Next(H, nodeId, s, step);
    WithoutWriters(H, s');
    AckedWhatever(s');
    if Enabled(s, step) {
      match step {
        case Pull(messages, ambient, stored, acks) =>
          PulledSound(H, nodeId, s, Decoded(messages), ambient, stored, acks);
        case Cut(messages, ambient, landed, acks) =>
          CutOffSound(H, nodeId, s, Decoded(messages), ambient, landed, acks);
        case Beats(order, now, stamps, stored) =>
          BeatsSound(H, s, order, now, stamps, stored);
        case Restart =>
          WithoutWriters(H, s);
          assert s' == s.(writers := map[]);
          NothingNew(s.store);
      }
    } else {
      NothingNew(s.store);
    }
  }

  lemma NothingNew(store: Store)
    ensures Extends(store, store)
  {
  }

  lemma WithoutWriters(H: HashFn, s: Sys)
    ensures SysSound(H, s) ==> StoreSound(H, s)
  {
    hide GoodRows, Stands, HasId;
  }

  lemma BeatsSound(H: HashFn, s: Sys, order: seq<ChainId>, now: i64, stamps: seq<i64>, stored: bool)
    requires SysSound(H, s) && |order| == |stamps| && Room(s.store, |order|)
    ensures
      var b := OfferAll(H, s.writers, order, now, stamps);
      var (store, writers) := Beaten(s.store, b, stored);
      var s' := Sys(store, writers, s.acked);
      && (Sound(H, s'.store, s'.writers) <==> stored || b.written == [])
      && AckedStored(s') && StoreSound(H, s') && Extends(s.store, s'.store)
  {
    hide GoodRows, Stands, HasId, OfferAll, Sound, Beaten, AckedStored;
    var b := OfferAll(H, s.writers, order, now, stamps);
    HeartbeatsSoundIff(H, s.store, s.writers, order, now, stamps, stored);
    var (store, writers) := Beaten(s.store, b, stored);
    var s' := Sys(store, writers, s.acked);
    AckedStillStored(s, s');
    AckedWhatever(s');
    if stored || b.written == [] {
      SoundWithoutWriters(H, store, writers);
    } else {
      assert store == s.store by { UnstoredBeat(s.store, b); }
      SoundWithoutWriters(H, s.store, s.writers);
    }
  }

  lemma UnstoredBeat(store: Store, b: Beat)
    ensures Beaten(store, b, false).0 == store
  {
  }

  /** What a step loses can be told before it.  A pull dropped before its insert got
      through loses something exactly if the store answered for each chain it was
      asked about and some event taken is remembered by no live writer; refused
      heartbeats, exactly if some writer offered had one due. */
  lemma LosesIff(H: HashFn, nodeId: Str, s: Sys, step: Step)
    requires Enabled(s, step)
    ensures
      match step
      case Cut(messages, ambient, landed, _) =>
        var taken := Decoded(messages)[..|ambient|];
        Loses(H, nodeId, s, step) <==>
        && !landed
        && (forall i :: 0 <= i < |taken| ==> Answered(s.writers, taken, ambient, i))
        && exists e :: e in taken && !Known(s.writers, e)
      case Beats(order, now, _, stored) =>
        Loses(H, nodeId, s, step) <==> !stored && exists c :: c in order && c in s.writers && BeatDue(H, s.writers[c], now)
      case _ => !Loses(H, nodeId, s, step)
  {
    hide TakeAll, OfferAll, Known, BeatDue, Answered, Decoded, Room;
    match step {
      case Cut(messages, ambient, landed, _) =>
        var taken := Decoded(messages)[..|ambient|];
        ChainedNothingIff(H, nodeId, s.store, s.writers, taken, ambient);
        NotDeferredIff(H, nodeId, s.store, s.writers, taken, ambient);
      case Beats(order, now, stamps, _) => WrittenNothingIff(H, s.writers, order, now, stamps);
      case _ =>
    }
  }

  // ----- Whole runs -----

  /** Whether step `k` of the run loses something. */
  ghost predicate LosesAt(H: HashFn, nodeId: Str, steps: seq<Step>, k: nat)
    requires k < |steps|
  {
    Loses(H, nodeId, Run(H, nodeId, steps[..k]), steps[k])
  }

  /** After a step that loses something, the process restarts before it does
      anything else. */
  ghost predicate Healed(H: HashFn, nodeId: Str, steps: seq<Step>) {
    forall k :: 0 <= k < |steps| - 1 && LosesAt(H, nodeId, steps, k) ==> steps[k + 1].Restart?
  }

  /** The run is healed, and its last step lost nothing either. */
  ghost predicate Whole(H: HashFn, nodeId: Str, steps: seq<Step>) {
    Healed(H, nodeId, steps) && (steps != [] ==> !LosesAt(H, nodeId, steps, |steps| - 1))
  }

  lemma LosesBefore(H: HashFn, nodeId: Str, steps: seq<Step>, n: nat, k: nat)
    requires k < n <= |steps|
    ensures LosesAt(H, nodeId, steps[..n], k) <==> LosesAt(H, nodeId, steps, k)
  {
    hide Loses, Run;
    assert steps[..n][..k] == steps[..k];
  }

  lemma HealedBefore(H: HashFn, nodeId: Str, steps: seq<Step>)
    requires Healed(H, nodeId, steps) && steps != []
    ensures Healed(H, nodeId, steps[..|steps| - 1])
    ensures |steps| > 1 && LosesAt(H, nodeId, steps[..|steps| - 1], |steps| - 2) ==> steps[|steps| - 1].Restart?
  {
    hide LosesAt;
    var n := |steps| - 1;
    forall k | 0 <= k < n
      ensures LosesAt(H, nodeId, steps[..n], k) <==> LosesAt(H, nodeId, steps, k)
    {
      LosesBefore(H, nodeId, steps, n, k);
    }
  }

  /** Whatever is delivered, redelivered, refused, handed back, half acked, dropped
      midway or cut short by a restart: as long as a step that leaves something
      chained and not stored is followed by a restart, every chain is complete and
      verifies and nothing is acked that is not stored; and live writers stand at
      their stored heads exactly if the last step was not such a step. */
  lemma {:induction false} RunSound(H: HashFn, nodeId: Str, steps: seq<Step>)
    requires Healed(H, nodeId, steps)
    ensures StoreSound(H, Run(H, nodeId, steps))
    ensures SysSound(H, Run(H, nodeId, steps)) <==> Whole(H, nodeId, steps)
  {
    hide SysSound, Next, Loses, Healed, StoreSound;
    if steps == [] {
      NothingSound(H);
      WithoutWriters(H, Sys(map[], map[], []));
    } else {
      var n := |steps| - 1;
      var s := Run(H, nodeId, steps[..n]);
      HealedBefore(H, nodeId, steps);
      RunSound(H, nodeId, steps[..n]);
      if SysSound(H, s) {
        NextSoundIff(H, nodeId, s, steps[n]);
      } else {
        RestartHeals(H, nodeId, s);
      }
    }
  }

  lemma RestartHeals(H: HashFn, nodeId: Str, s: Sys)
    requires StoreSound(H, s)
    ensures SysSound(H, Next(H, nodeId, s, Restart)) && StoreSound(H, Next(H, nodeId, s, Restart))
    ensures !Loses(H, nodeId, s, Restart)
  {
    hide GoodRows, Stands, HasId;
  }

  lemma NothingSound(H: HashFn)
    ensures SysSound(H, Sys(map[], map[], []))
  {
  }

  /** The exact condition: the invariant holds at every moment of a run if and
      only if no step leaves something chained that is not stored. */
  lemma AlwaysSoundIff(H: HashFn, nodeId: Str, steps: seq<Step>)
    ensures (forall k :: 0 <= k <= |steps| ==> SysSound(H, Run(H, nodeId, steps[..k]))) <==>
            (forall k :: 0 <= k < |steps| ==> !LosesAt(H, nodeId, steps, k))
  {
    hide SysSound, Next, Loses, StoreSound;
    if forall k :: 0 <= k < |steps| ==> !LosesAt(H, nodeId, steps, k) {
      forall k | 0 <= k <= |steps|
        ensures SysSound(H, Run(H, nodeId, steps[..k]))
      {
        LosslessIsWhole(H, nodeId, steps, k);
        RunSound(H, nodeId, steps[..k]);
      }
    }
    if forall k :: 0 <= k <= |steps| ==> SysSound(H, Run(H, nodeId, steps[..k])) {
      forall k | 0 <= k < |steps|
        ensures !LosesAt(H, nodeId, steps, k)
      {
        assert SysSound(H, Run(H, nodeId, steps[..k])) && SysSound(H, Run(H, nodeId, steps[..k + 1]));
        assert steps[..k + 1][..k] == steps[..k];
        NextSoundIff(H, nodeId, Run(H, nodeId, steps[..k]), steps[k]);
      }
    }
  }

  lemma LosslessIsWhole(H: HashFn, nodeId: Str, steps: seq<Step>, n: nat)
    requires n <= |steps| && forall k :: 0 <= k < n ==> !LosesAt(H, nodeId, steps, k)
    ensures Whole(H, nodeId, steps[..n])
  {
    hide LosesAt;
    forall k | 0 <= k < n
      ensures !LosesAt(H, nodeId, steps[..n], k)
    {
      LosesBefore(H, nodeId, steps, n, k);
    }
  }

  /** The same, in the verifier's terms: positions 1..n, every row of its own
      chain, and a clean report from genesis; and unless something was just lost,
      the writer stands at its head. */
  lemma RunVerifies(H: HashFn, nodeId: Str, steps: seq<Step>, chain: ChainId)
    requires Healed(H, nodeId, steps)
    ensures
      var s := Run(H, nodeId, steps);
      var rows := Of(s.store, chain);
      && (forall i :: 0 <= i < |rows| ==> rows[i].seqNo == i + 1 && rows[i].emitted.Chain() == chain)
      && Report(H, rows, GENESIS).IsClean()
      && (Whole(H, nodeId, steps) && chain in s.writers ==>
            && s.writers[chain].nextSeq == |rows| + 1
            && s.writers[chain].head == Report(H, rows, GENESIS).headHash)
  {
    hide Run, HasId, GoodRows, Stands, Report, Whole, Healed;
    RunSound(H, nodeId, steps);
    var s := Run(H, nodeId, steps);
    GoodIsClean(H, chain, Of(s.store, chain));
    if Whole(H, nodeId, steps) && chain in s.writers {
      StandsAt(s.writers[chain], chain, Of(s.store, chain));
    }
  }

  lemma GoodIsClean(H: HashFn, chain: ChainId, rows: seq<AuditEvent>)
    requires GoodRows(H, chain, rows)
    ensures forall i :: 0 <= i < |rows| ==> rows[i].seqNo == i + 1 && rows[i].emitted.Chain() == chain
    ensures Report(H, rows, GENESIS).IsClean() && Report(H, rows, GENESIS).headHash == HeadOf(rows, GENESIS)
  {
    hide Rehashes, Linked, Findings, HeadOf;
    CleanIff(H, rows, GENESIS);
  }

  lemma StoreAllExtends(store: Store, es: seq<AuditEvent>)
    ensures Extends(store, StoreAll(store, es))
  {
    forall c
      ensures Of(store, c) <= Of(StoreAll(store, es), c)
    {
      StoreAllAppends(store, es, c);
    }
  }

  lemma NextExtends(H: HashFn, nodeId: Str, s: Sys, step: Step)
    ensures Extends(s.store, Next(H, nodeId, s, step).store)
  {
    hide TakeAll, OfferAll, StoreAll, Rewound, Extends;
    NothingNew(s.store);
    match step {
      case Pull(messages, ambient, _, _) =>
        if |ambient| == |Decoded(messages)| {
          StoreAllExtends(s.store, TakeAll(H, nodeId, s.store, StartBatch(s.writers), Decoded(messages), ambient).chained);
        }
      case Cut(messages, ambient, _, _) =>
        if |ambient| <= |Decoded(messages)| {
          StoreAllExtends(
            s.store, TakeAll(H, nodeId, s.store, StartBatch(s.writers), Decoded(messages)[..|ambient|], ambient).chained);
        }
      case Beats(order, now, stamps, _) =>
        if |order| == |stamps| {
          StoreAllExtends(s.store, OfferAll(H, s.writers, order, now, stamps).written);
        }
      case Restart =>
    }
  }

  /** Evidence once stored is there for good, in every run whatever it loses. */
  lemma {:induction false} RunOnlyAdds(H: HashFn, nodeId: Str, steps: seq<Step>, more: seq<Step>)
    ensures Extends(Run(H, nodeId, steps).store, Run(H, nodeId, steps + more).store)
    decreases |more|
  {
    hide Next, Extends;
    if more == [] {
      assert steps + more == steps;
      NothingNew(Run(H, nodeId, steps).store);
    } else {
      var t, n := steps + more[..|more| - 1], |steps + more| - 1;
      assert (steps + more)[..n] == t;
      RunOnlyAdds(H, nodeId, steps, more[..|more| - 1]);
      NextExtends(H, nodeId, Run(H, nodeId, t), (steps + more)[n]);
      ExtendsOn(Run(H, nodeId, steps).store, Run(H, nodeId, t).store, Run(H, nodeId, steps + more).store);
    }
  }

  lemma ExtendsOn(a: Store, b: Store, c: Store)
    requires Extends(a, b) && Extends(b, c)
    ensures Extends(a, c)
  {
    forall x
      ensures Of(a, x) <= Of(c, x)
    {
      assert Of(a, x) <= Of(b, x) && Of(b, x) <= Of(c, x);
    }
  }

  // ----- Once the store answers -----

  lemma {:induction false} AnsweredNeverDeferred(H: HashFn, nodeId: Str, store: Store, b: Batch, es: seq<EmittedEvent>, ambient: seq<Ambient>)
    requires |es| == |ambient| && !b.outcome.Deferred? && forall a | a in ambient :: a.headUp
    ensures !TakeAll(H, nodeId, store, b, es, ambient).outcome.Deferred?
    decreases |es|
  {
    hide Append, Resumed, Rewound;
    if es != [] {
      AnsweredNeverDeferred(H, nodeId, store, b, es[..|es| - 1], ambient[..|es| - 1]);
    }
  }

  /** Once the store answers, a pull is never handed back: all of it is acked,
      and with it stored. */
  lemma AnsweredPullAcksAll(H: HashFn, nodeId: Str, s: Sys, es: seq<EmittedEvent>, ambient: seq<Ambient>)
    requires |es| == |ambient| && Room(s.store, |es|) && SysSound(H, s) && forall a | a in ambient :: a.headUp
    ensures var s' := Pulled(H, nodeId, s, es, ambient, true, |es|);
            && s'.acked == s.acked + es
            && forall e | e in es :: HasId(Of(s'.store, e.Chain()), e.eventId)
  {
    hide GoodRows, Stands, TakeAll, HasId, Sound, Settled;
    AnsweredNeverDeferred(H, nodeId, s.store, StartBatch(s.writers), es, ambient);
    IngestSound(H, nodeId, s.store, s.writers, es, ambient, true);
    assert es[..|es|] == es;
  }

  // ----- How far deduplication reaches -----

  /** A live writer turns an event away exactly if the event is among the last
      rows it remembers. */
  lemma TurnedAwayIff(H: HashFn, nodeId: Str, steps: seq<Step>, e: EmittedEvent, now: i64)
    requires Whole(H, nodeId, steps) && e.Chain() in Run(H, nodeId, steps).writers
    ensures
      var s := Run(H, nodeId, steps);
      var w, rows := s.writers[e.Chain()], Of(s.store, e.Chain());
      && |w.seenOrder| <= |rows| && |w.seenOrder| <= 100_000
      && (Append(H, w, e, now).Err? <==> HasId(rows[|rows| - |w.seenOrder|..], e.eventId))
  {
    hide Run, GoodRows, Stands, HasId, Append, LosesAt;
    RunSound(H, nodeId, steps);
    var s := Run(H, nodeId, steps);
    TailTurnedAway(H, s.writers[e.Chain()], Of(s.store, e.Chain()), e, now);
  }

  lemma TailTurnedAway(H: HashFn, w: Cursor, rows: seq<AuditEvent>, e: EmittedEvent, now: i64)
    requires Stands(w, e.Chain(), rows)
    ensures |w.seenOrder| <= |rows| && |w.seenOrder| <= DEDUPE_WINDOW
    ensures Append(H, w, e, now).Err? <==> HasId(rows[|rows| - |w.seenOrder|..], e.eventId)
  {
    hide ChainEvent, HasId, RemembersTail, IndexExact;
    assert RemembersTail(w, rows);
    TailBounded(w, rows);
    SeenIffInTail(w, rows, e.eventId);
    if e.eventId !in w.seen {
      ChainsAnything(H, w, e, now);
    }
  }

  lemma ChainsAnything(H: HashFn, w: Cursor, e: EmittedEvent, now: i64)
    ensures ChainEvent(H, w, e, now).Ok?
  {
    hide EventHash, Remember;
    SealTotal(H, Unsealed(w, e, now));
  }

  lemma SeenIffInTail(w: Cursor, rows: seq<AuditEvent>, id: EventId)
    requires RemembersTail(w, rows) && IndexExact(w)
    ensures id in w.seen <==> HasId(rows[|rows| - |w.seenOrder|..], id)
  {
    hide IndexExact, HasId;
    var tail := rows[|rows| - |w.seenOrder|..];
    forall i | 0 <= i < |tail|
      ensures tail[i].emitted.eventId == w.seenOrder[i]
    {
      assert tail[i] == rows[|rows| - |w.seenOrder| + i];
    }
    InTailIff(w.seenOrder, tail, id);
    SeenIffInOrder(w, id);
  }

  lemma SeenIffInOrder(w: Cursor, id: EventId)
    requires IndexExact(w)
    ensures id in w.seen <==> id in w.seenOrder
  {
  }

  lemma InTailIff(order: seq<EventId>, tail: seq<AuditEvent>, id: EventId)
    requires |order| == |tail| && forall i :: 0 <= i < |tail| ==> tail[i].emitted.eventId == order[i]
    ensures id in order <==> HasId(tail, id)
  {
    if HasId(tail, id) {
      var x :| x in tail && x.emitted.eventId == id;
      var i :| 0 <= i < |tail| && tail[i] == x;
      assert order[i] == id;
    }
    if id in order {
      var i :| 0 <= i < |order| && order[i] == id;
      assert tail[i] in tail;
    }
  }

  /** A restart between store and ack: the event comes back to a writer that
      remembers nothing, and is stored a second time. */
  lemma RestartStoresTwice(H: HashFn, nodeId: Str, e: EmittedEvent, a: Ambient, a': Ambient)
    requires a.headUp && a'.headUp
    ensures
      var s := Run(H, nodeId, [Pull([Decodable(e)], [a], true, 0), Restart, Pull([Decodable(e)], [a'], true, 1)]);
      var rows := Of(s.store, e.Chain());
      && |rows| == 2 && rows[0].emitted == e && rows[1].emitted == e
      && Report(H, rows, GENESIS).IsClean()
  {
    hide Run, Next, Report, SysSound, StoreSound;
    var first, second, third := Pull([Decodable(e)], [a], true, 0), Restart, Pull([Decodable(e)], [a'], true, 1);
    NothingSound(H);
    var none: Sys := Sys(map[], map[], []);
    var s1 := Next(H, nodeId, none, first);
    var x := ColdPullStores(H, nodeId, none, e, a, 0);
    NextSoundIff(H, nodeId, none, first);
    var s2 := s1.(writers := map[]);
    Restarted(H, nodeId, s1);
    NextSoundIff(H, nodeId, s1, second);
    var y := ColdPullStores(H, nodeId, s2, e, a', 1);
    ThreeSteps(H, nodeId, first, second, third);
    NothingToLose(H, nodeId, [first, second, third]);
    RunVerifies(H, nodeId, [first, second, third], e.Chain());
  }

  lemma NothingToLose(H: HashFn, nodeId: Str, steps: seq<Step>)
    requires forall step | step in steps :: step.Pull? || step.Restart?
    ensures Whole(H, nodeId, steps)
  {
    hide Run;
  }

  lemma Restarted(H: HashFn, nodeId: Str, s: Sys)
    ensures Next(H, nodeId, s, Restart) == s.(writers := map[])
  {
  }

  lemma ThreeSteps(H: HashFn, nodeId: Str, a: Step, b: Step, c: Step)
    ensures Run(H, nodeId, [a, b, c]) == Next(H, nodeId, Next(H, nodeId, Next(H, nodeId, Sys(map[], map[], []), a), b), c)
  {
    hide Next, Run;
    RunOneMore(H, nodeId, [a, b], c);
    RunOneMore(H, nodeId, [a], b);
    RunOneMore(H, nodeId, [], a);
    RunNothing(H, nodeId);
    assert [a, b] + [c] == [a, b, c] && [a] + [b] == [a, b] && [] + [a] == [a];
  }

  lemma RunNothing(H: HashFn, nodeId: Str)
    ensures Run(H, nodeId, []) == Sys(map[], map[], [])
  {
    hide Next;
  }

  lemma RunOneMore(H: HashFn, nodeId: Str, steps: seq<Step>, step: Step)
    ensures Run(H, nodeId, steps + [step]) == Next(H, nodeId, Run(H, nodeId, steps), step)
  {
    hide Next;
    assert (steps + [step])[..|steps|] == steps;
  }

  lemma ColdTakeChains(H: HashFn, nodeId: Str, store: Store, writers: Writers, e: EmittedEvent, a: Ambient)
    returns (b: Batch, event: AuditEvent)
    requires Sound(H, store, writers) && e.Chain() !in writers && a.headUp && Room(store, 1)
    ensures b == TakeAll(H, nodeId, store, StartBatch(writers), [e], [a])
    ensures b.chained == [event] && b.outcome.Going? && event.emitted == e
    ensures e.Chain() in b.writers && e.eventId in b.writers[e.Chain()].seen
  {
    hide GoodRows, Append, HeadOf, Stands, TakeAll, Resumed, HeadRow;
    var c := e.Chain();
    var rows := Of(store, c);
    assert |rows| + 1 < U64_MAX;
    ResumedStands(H, c, nodeId, rows);
    var w := Resumed(c, nodeId, HeadRow(rows));
    assert e.eventId !in w.seen by { RemembersNothing(c, nodeId, HeadRow(rows)); }
    AppendStands(H, w, c, rows, e, a.now);
    event := Append(H, w, e, a.now).value.1;
    NewestRemembered(Append(H, w, e, a.now).value.0, c, rows + [event]);
    TakeAllOne(H, nodeId, store, StartBatch(writers), e, a);
    b := TakeOne(H, nodeId, store, StartBatch(writers), e, a);
    assert [] + [event] == [event];
  }

  lemma NewestRemembered(w: Cursor, c: ChainId, rows: seq<AuditEvent>)
    requires Stands(w, c, rows) && w.seenOrder != [] && rows != []
    ensures rows[|rows| - 1].emitted.eventId in w.seen
  {
    assert w.seenOrder[|w.seenOrder| - 1] == rows[|rows| - 1].emitted.eventId;
  }

  lemma RemembersNothing(c: ChainId, nodeId: Str, head: Option<(u64, Hash32)>)
    ensures Resumed(c, nodeId, head).seen == map[]
  {
  }

  lemma TakeAllOne(H: HashFn, nodeId: Str, store: Store, b: Batch, e: EmittedEvent, a: Ambient)
    ensures TakeAll(H, nodeId, store, b, [e], [a]) == TakeOne(H, nodeId, store, b, e, a)
  {
    hide TakeOne;
    assert [e][..0] == [] && [a][..0] == [];
    assert TakeAll(H, nodeId, store, b, [], []) == b;
  }

  /** An event of a chain with no live writer is always stored. */
  lemma ColdPullStores(H: HashFn, nodeId: Str, s: Sys, e: EmittedEvent, a: Ambient, acks: nat) returns (event: AuditEvent)
    requires SysSound(H, s) && e.Chain() !in s.writers && a.headUp && Room(s.store, 1)
    ensures event.emitted == e
    ensures var s' := Next(H, nodeId, s, Pull([Decodable(e)], [a], true, acks));
            && Of(s'.store, e.Chain()) == Of(s.store, e.Chain()) + [event]
            && forall x :: |Of(s'.store, x)| <= |Of(s.store, x)| + 1
  {
    hide GoodRows, Append, HeadOf, Stands, TakeAll, TakeOne, Sound, StoreAll, Resumed, HeadRow;
    var c := e.Chain();
    assert Decoded([Decodable(e)]) == [e] by { assert [Decodable(e)][..0] == []; }
    var b: Batch;
    b, event := ColdTakeChains(H, nodeId, s.store, s.writers, e, a);
    forall x
      ensures Of(StoreAll(s.store, [event]), x) == Of(s.store, x) + if x == c then [event] else []
    {
      StoreAllAppends(s.store, [event], x);
      OnlyOneMore([], event, x);
      assert [] + [event] == [event];
    }
  }

  // ----- What a dropped pull leads to -----

  /** An event the writer remembers is taken for a duplicate: acked, not stored. */
  lemma RememberedIsAcked(H: HashFn, nodeId: Str, s: Sys, e: EmittedEvent, a: Ambient, stored: bool)
    requires e.Chain() in s.writers && e.eventId in s.writers[e.Chain()].seen
    ensures var s' := Pulled(H, nodeId, s, [e], [a], stored, 1);
            s'.store == s.store && s'.acked == s.acked + [e]
  {
    hide ChainEvent;
    TakeAllOne(H, nodeId, s.store, StartBatch(s.writers), e, a);
  }

  /** A pull dropped after an event was chained and before it was stored leaves the
      writer remembering it: when the bus delivers it again it is acked, and no
      row of it exists. */
  lemma StrandedIsAckedUnstored(H: HashFn, nodeId: Str, s: Sys, cut: Step, e: EmittedEvent, a: Ambient, stored: bool)
    requires cut.Cut? && !cut.landed && SysSound(H, s) && Enabled(s, cut)
    requires var w := Next(H, nodeId, s, cut).writers; e.Chain() in w && e.eventId in w[e.Chain()].seen
    requires !HasId(Of(s.store, e.Chain()), e.eventId)
    ensures
      var s' := Pulled(H, nodeId, Next(H, nodeId, s, cut), [e], [a], stored, 1);
      && e in s'.acked && !HasId(Of(s'.store, e.Chain()), e.eventId) && !AckedStored(s')
  {
    hide HasId, TakeAll, Sound, Pulled;
    var s1 := Next(H, nodeId, s, cut);
    RememberedIsAcked(H, nodeId, s1, e, a, stored);
    assert s1.store == s.store;
  }

  lemma FirstCut(H: HashFn, nodeId: Str, e: EmittedEvent, a: Ambient) returns (s: Sys)
    requires a.headUp
    ensures var none, cut := Sys(map[], map[], []), Cut([Decodable(e)], [a], false, 0);
            s == Next(H, nodeId, none, cut) && Loses(H, nodeId, none, cut)
    ensures s.store == map[] && s.acked == [] && e.Chain() in s.writers && e.eventId in s.writers[e.Chain()].seen
  {
    hide TakeAll, StoreAll, Sound;
    var none, cut := Sys(map[], map[], []), Cut([Decodable(e)], [a], false, 0);
    NothingSound(H);
    DecodedOne(e);
    var b, event := ColdTakeChains(H, nodeId, map[], map[], e, a);
    assert [e][..1] == [e];
    s := Next(H, nodeId, none, cut);
  }

  lemma DecodedOne(e: EmittedEvent)
    ensures Decoded([Decodable(e)]) == [e]
  {
    assert [Decodable(e)][..0] == [];
  }

  lemma SecondPull(H: HashFn, nodeId: Str, s: Sys, e: EmittedEvent, a: Ambient)
    requires s.store == map[] && s.acked == [] && e.Chain() in s.writers && e.eventId in s.writers[e.Chain()].seen
    ensures var s' := Next(H, nodeId, s, Pull([Decodable(e)], [a], true, 1));
            s'.store == map[] && s'.acked == [e]
  {
    hide Pulled;
    DecodedOne(e);
    RememberedIsAcked(H, nodeId, s, e, a, true);
  }

  /** The least such run, for any event: dropped once, delivered again, acked, and
      never stored. */
  lemma CutThenAckedUnstored(H: HashFn, nodeId: Str, e: EmittedEvent, a: Ambient, a': Ambient)
    requires a.headUp
    ensures
      var steps := [Cut([Decodable(e)], [a], false, 0), Pull([Decodable(e)], [a'], true, 1)];
      var s := Run(H, nodeId, steps);
      && s.acked == [e] && Of(s.store, e.Chain()) == []
      && LosesAt(H, nodeId, steps, 0) && !Healed(H, nodeId, steps)
  {
    hide Run, Next, Pulled, TakeAll, CutOff, Loses;
    var cut, pull := Cut([Decodable(e)], [a], false, 0), Pull([Decodable(e)], [a'], true, 1);
    var steps, none := [cut, pull], Sys(map[], map[], []);
    RunNothing(H, nodeId);
    RunOneMore(H, nodeId, [], cut);
    RunOneMore(H, nodeId, [cut], pull);
    assert [] + [cut] == [cut] && [cut] + [pull] == steps && steps[..0] == [];
    var s1 := FirstCut(H, nodeId, e, a);
    SecondPull(H, nodeId, s1, e, a');
    assert LosesAt(H, nodeId, steps, 0);
  }
}
