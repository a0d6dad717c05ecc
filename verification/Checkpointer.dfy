/**
 * Checkpoint scheduling: sealing what is new of every chain, by one
 * checkpointer or by several replicas that interleave their reads and writes.
 *
 * A chain's rows are its stored events, at the positions they carry.
 */
module Checkpointer {
  import opened Wrappers
  import opened Hashing
  import opened Merkle
  import opened Canon
  import opened Events
  import opened Chain
  import opened Verify
  import opened Positions
  import opened Checkpoints

  datatype Config = Config(scheme: Scheme, secret: Bytes, keyId: Str, everyN: nat, everyT: nat)

  type Table<T> = map<ChainId, seq<T>>

  function Of<T>(table: Table<T>, chain: ChainId): seq<T> {
    if chain in table then table[chain] else []
  }

  /** Interval between two timestamps, saturating at both ends. */
  function MicrosBetween(from: i64, to: i64): nat {
    if to <= from then 0
    else if to - from > 0x7FFF_FFFF_FFFF_FFFF then 0x7FFF_FFFF_FFFF_FFFF
    else to - from
  }

  // ----- The checkpoint table -----

  /** The checkpoint that reaches furthest. */
  function Furthest(cps: seq<Checkpoint>): Option<Checkpoint> {
    if cps == [] then None
    else
      var last := cps[|cps| - 1];
      match Furthest(cps[..|cps| - 1])
      case None => Some(last)
      case Some(best) => if last.body.seqTo > best.body.seqTo then Some(last) else Some(best)
  }

  /** The last position sealed, 0 if none. */
  function SealedTo(cps: seq<Checkpoint>): nat {
    match Furthest(cps)
    case None => 0
    case Some(cp) => cp.body.seqTo
  }

  predicate Conflicts(cps: seq<Checkpoint>, cp: Checkpoint) {
    exists x :: x in cps && x.body.seqTo == cp.body.seqTo
  }

  /** A second checkpoint up to the same position is dropped. */
  function PutInto(cps: seq<Checkpoint>, cp: Checkpoint): seq<Checkpoint> {
    if Conflicts(cps, cp) then cps else cps + [cp]
  }

  function Due(cfg: Config, pending: nat, last: Option<Checkpoint>, now: i64): bool {
    pending >= cfg.everyN || last.None? || MicrosBetween(last.value.body.builtAt, now) >= cfg.everyT
  }

  // ----- What a chain's checkpoints should be -----

  /** `cp` seals positions from..=to: signed, none of them missing, and with the tree
      over their rows as root. */
  ghost predicate Seals(H: HashFn, cfg: Config, chain: ChainId, rows: seq<AuditEvent>, cp: Checkpoint) {
    && cp.body.tenantId == chain.tenantId && cp.body.systemId == chain.systemId
    && 1 <= cp.body.seqFrom <= cp.body.seqTo <= HeadPos(rows) && Complete(rows, cp.body.seqFrom, cp.body.seqTo)
    && cp.body.rootHash == TreeRoot(H, StoredHashes(Between(rows, cp.body.seqFrom, cp.body.seqTo)))
    && cp.keyId == cfg.keyId && cp.body.canonVersion == Ascii("ancre-canon/1")
    && VerifyCheckpoint(H, cfg.scheme, cp, cfg.scheme.publicKey(cfg.secret)) == Ok(())
  }

  ghost predicate SealedAt(cps: seq<Checkpoint>, n: nat) {
    exists cp :: cp in cps && cp.body.seqFrom <= n <= cp.body.seqTo
  }

  /** No hole: every position up to the last one sealed is sealed. */
  ghost predicate NoHole(cps: seq<Checkpoint>) {
    forall n :: 1 <= n <= SealedTo(cps) ==> SealedAt(cps, n)
  }

  ghost predicate ChainSound(H: HashFn, cfg: Config, chain: ChainId, rows: seq<AuditEvent>, cps: seq<Checkpoint>) {
    && Rising(rows) && HeadPos(rows) < U64_MAX
    && (forall cp | cp in cps :: Seals(H, cfg, chain, rows, cp))
    && NoHole(cps)
  }

  lemma {:induction false} FurthestIsMax(cps: seq<Checkpoint>)
    ensures Furthest(cps).None? <==> cps == []
    ensures Furthest(cps).Some? ==> Furthest(cps).value in cps
    ensures forall cp | cp in cps :: cp.body.seqTo <= SealedTo(cps)
  {
    if cps != [] {
      FurthestIsMax(cps[..|cps| - 1]);
      assert cps == cps[..|cps| - 1] + [cps[|cps| - 1]];
    }
  }

  lemma PutMoves(cps: seq<Checkpoint>, cp: Checkpoint)
    ensures SealedTo(PutInto(cps, cp)) == if cp.body.seqTo > SealedTo(cps) then cp.body.seqTo else SealedTo(cps)
  {
    FurthestIsMax(cps);
    if !Conflicts(cps, cp) {
      assert (cps + [cp])[..|cps|] == cps;
    }
  }

  /** Putting a checkpoint that starts no later than the first unsealed position
      leaves no hole, whoever else has put what in between. */
  lemma PutLeavesNoHole(cps: seq<Checkpoint>, cp: Checkpoint)
    requires NoHole(cps) && cp.body.seqFrom <= SealedTo(cps) + 1
    ensures NoHole(PutInto(cps, cp))
  {
    PutMoves(cps, cp);
    var after := PutInto(cps, cp);
    FurthestIsMax(cps);
    forall n | 1 <= n <= SealedTo(after)
      ensures SealedAt(after, n)
    {
      if n <= SealedTo(cps) {
        assert SealedAt(cps, n);
        var x :| x in cps && x.body.seqFrom <= n <= x.body.seqTo;
        assert x in after;
      } else {
        assert !Conflicts(cps, cp);
        assert cp in after;
      }
    }
  }

  lemma SealedRangeSeals(
    H: HashFn, cfg: Config, chain: ChainId, rows: seq<AuditEvent>, from: nat, to: nat, leaves: seq<Hash32>, now: i64)
    requires cfg.scheme.Correct() && Rising(rows) && HeadPos(rows) < U64_MAX && 1 <= from <= to <= HeadPos(rows)
    requires leaves == StoredHashes(Between(rows, from, to)) && |leaves| == to - from + 1
    ensures
      var r := SealRange(H, cfg.scheme, cfg.secret, cfg.keyId, chain, from, leaves, now);
      && r.Ok? && r.value.body.seqFrom == from && r.value.body.seqTo == to && r.value.body.builtAt == now
      && Seals(H, cfg, chain, rows, r.value)
  {
    hide SigningPayload, TreeRoot, Rising, Between, Holds;
    CountIff(rows, from, to);
    var b := CheckpointBody(chain.tenantId, chain.systemId, from, to, TreeRoot(H, leaves), now, CANON_VERSION);
    PayloadBindsBody(H, b, b);
  }

  /** Later rows do not disturb what earlier checkpoints seal. */
  lemma RowsGrow(H: HashFn, cfg: Config, chain: ChainId, rows: seq<AuditEvent>, more: seq<AuditEvent>, cps: seq<Checkpoint>)
    requires ChainSound(H, cfg, chain, rows, cps) && Rising(rows + more) && HeadPos(rows + more) < U64_MAX
    ensures ChainSound(H, cfg, chain, rows + more, cps)
  {
    hide TreeRoot, VerifyCheckpoint, NoHole, Rising, Between, Holds;
    forall cp | cp in cps
      ensures Seals(H, cfg, chain, rows + more, cp)
    {
      BetweenGrows(rows, more, cp.body.seqFrom, cp.body.seqTo);
      forall n | cp.body.seqFrom <= n <= cp.body.seqTo
        ensures Holds(rows + more, n)
      {
        assert Holds(rows, n);
        GapStays(rows, more, n);
      }
      GapStays(rows, more, 0);
    }
  }

  // ----- Several replicas -----

  /** How far a replica has got with a chain. */
  datatype Phase =
    | Idle
    | SawHead(chain: ChainId, head: nat)
    | SawLast(chain: ChainId, head: nat, from: nat)
    | SawLeaves(chain: ChainId, head: nat, from: nat, leaves: seq<Hash32>)

  datatype World = World(rows: Table<AuditEvent>, sealed: Table<Checkpoint>, replicas: map<nat, Phase>) {
    function At(replica: nat): Phase {
      if replica in replicas then replicas[replica] else Idle
    }

    function Goto(replica: nat, phase: Phase): World {
      this.(replicas := replicas[replica := phase])
    }
  }

  datatype Action =
    | Append(chain: ChainId, more: seq<AuditEvent>)  // the ingester stores events
    | ReadHead(replica: nat, chain: ChainId)
    | ReadLast(replica: nat, now: i64)
    | ReadLeaves(replica: nat)
    | Put(replica: nat, stamp: i64)
    | Abandon(replica: nat)  // any failed call or short read ends the tick

  function Step(H: HashFn, cfg: Config, w: World, a: Action): World {
    match a
    case Append(chain, more) =>
      if !Rising(Of(w.rows, chain) + more) || HeadPos(Of(w.rows, chain) + more) >= U64_MAX then w
      else w.(rows := w.rows[chain := Of(w.rows, chain) + more])
    case ReadHead(r, chain) =>
      var head := HeadPos(Of(w.rows, chain));
      if !w.At(r).Idle? || head == 0 then w else w.Goto(r, SawHead(chain, head))
    case ReadLast(r, now) =>
      (match w.At(r)
       case SawHead(chain, head) =>
         var last := Furthest(Of(w.sealed, chain));
         var from := SealedTo(Of(w.sealed, chain)) + 1;
         if from > head || !Due(cfg, head - from + 1, last, now) then w.Goto(r, Idle)
         else w.Goto(r, SawLast(chain, head, from))
       case _ => w)
    case ReadLeaves(r) =>
      (match w.At(r)
       case SawLast(chain, head, from) =>
         w.Goto(r, SawLeaves(chain, head, from, StoredHashes(Between(Of(w.rows, chain), from, head))))
       case _ => w)
    case Put(r, stamp) =>
      (match w.At(r)
       case SawLeaves(chain, head, from, leaves) =>
         if |leaves| != head - from + 1 || from + |leaves| > U64_MAX then w.Goto(r, Idle)
         else
           (match SealRange(H, cfg.scheme, cfg.secret, cfg.keyId, chain, from, leaves, stamp)
            case Err(_) => w.Goto(r, Idle)
            case Ok(cp) => w.(sealed := w.sealed[chain := PutInto(Of(w.sealed, chain), cp)]).Goto(r, Idle))
       case _ => w)
    case Abandon(r) => w.Goto(r, Idle)
  }

  function Run(H: HashFn, cfg: Config, actions: seq<Action>): World {
    if actions == [] then World(map[], map[], map[])
    else Step(H, cfg, Run(H, cfg, actions[..|actions| - 1]), actions[|actions| - 1])
  }

  /** What a replica remembers is still true: rows are only added above, and the last
      position sealed only moves up. */
  ghost predicate PhaseSound(w: World, p: Phase) {
    match p
    case Idle => true
    case SawHead(chain, head) => 1 <= head <= HeadPos(Of(w.rows, chain))
    case SawLast(chain, head, from) =>
      1 <= from <= head <= HeadPos(Of(w.rows, chain)) && from <= SealedTo(Of(w.sealed, chain)) + 1
    case SawLeaves(chain, head, from, leaves) =>
      && 1 <= from <= head <= HeadPos(Of(w.rows, chain)) && from <= SealedTo(Of(w.sealed, chain)) + 1
      && leaves == StoredHashes(Between(Of(w.rows, chain), from, head))
  }

  ghost predicate WorldSound(H: HashFn, cfg: Config, w: World) {
    && (forall chain :: ChainSound(H, cfg, chain, Of(w.rows, chain), Of(w.sealed, chain)))
    && (forall r :: PhaseSound(w, w.At(r)))
  }

  lemma StepKeepsSound(H: HashFn, cfg: Config, w: World, a: Action)
    requires cfg.scheme.Correct() && WorldSound(H, cfg, w)
    ensures WorldSound(H, cfg, Step(H, cfg, w, a))
  {
    hide ChainSound, TreeRoot, VerifyCheckpoint, SealRange, Furthest, SealedTo, Due, Rising, Between;
    match a {
      case Append(chain, more) =>
        if Rising(Of(w.rows, chain) + more) && HeadPos(Of(w.rows, chain) + more) < U64_MAX {
          AppendKeepsSound(H, cfg, w, chain, more);
        }
      case Put(r, stamp) =>
        if w.At(r).SawLeaves? {
          PutKeepsSound(H, cfg, w, r, stamp);
        }
      case ReadHead(r, chain) =>
        if w.At(r).Idle? && HeadPos(Of(w.rows, chain)) != 0 {
          GotoKeepsSound(H, cfg, w, r, SawHead(chain, HeadPos(Of(w.rows, chain))));
        }
      case ReadLast(r, now) =>
        assert PhaseSound(w, w.At(r));
        GotoKeepsSound(H, cfg, w, r, Step(H, cfg, w, a).At(r));
      case ReadLeaves(r) =>
        assert PhaseSound(w, w.At(r));
        GotoKeepsSound(H, cfg, w, r, Step(H, cfg, w, a).At(r));
      case Abandon(r) =>
        GotoKeepsSound(H, cfg, w, r, Idle);
    }
  }

  lemma PhaseStays(w: World, w': World, p: Phase)
    requires PhaseSound(w, p) && w'.rows == w.rows && w'.sealed == w.sealed
    ensures PhaseSound(w', p)
  {
  }

  lemma GotoKeepsSound(H: HashFn, cfg: Config, w: World, r: nat, p: Phase)
    requires WorldSound(H, cfg, w) && PhaseSound(w, p)
    ensures WorldSound(H, cfg, w.Goto(r, p))
  {
    hide ChainSound, PhaseSound;
    var w' := w.Goto(r, p);
    forall q
      ensures PhaseSound(w', w'.At(q))
    {
      assert PhaseSound(w, w.At(q));
      PhaseStays(w, w', w'.At(q));
    }
  }

  lemma AppendKeepsSound(H: HashFn, cfg: Config, w: World, chain: ChainId, more: seq<AuditEvent>)
    requires WorldSound(H, cfg, w) && Rising(Of(w.rows, chain) + more) && HeadPos(Of(w.rows, chain) + more) < U64_MAX
    ensures WorldSound(H, cfg, w.(rows := w.rows[chain := Of(w.rows, chain) + more]))
  {
    var rows := Of(w.rows, chain);
    var w' := w.(rows := w.rows[chain := rows + more]);
    hide Rising, Between, HeadPos;
    RowsGrow(H, cfg, chain, rows, more, Of(w.sealed, chain));
    GapStays(rows, more, 0);
    hide ChainSound;
    forall r
      ensures PhaseSound(w', w'.At(r))
    {
      assert PhaseSound(w, w.At(r));
      var p := w.At(r);
      if p.SawLeaves? && p.chain == chain {
        BetweenGrows(rows, more, p.from, p.head);
      }
    }
  }

  lemma PutKeepsSound(H: HashFn, cfg: Config, w: World, r: nat, stamp: i64)
    requires cfg.scheme.Correct() && WorldSound(H, cfg, w) && w.At(r).SawLeaves?
    ensures WorldSound(H, cfg, Step(H, cfg, w, Put(r, stamp)))
  {
    hide TreeRoot, VerifyCheckpoint, SealRange, Furthest, SealedTo, Seals, NoHole, Rising, Between, HeadPos;
    var SawLeaves(chain, head, from, leaves) := w.At(r);
    assert PhaseSound(w, w.At(r)) && ChainSound(H, cfg, chain, Of(w.rows, chain), Of(w.sealed, chain));
    if |leaves| != head - from + 1 {
      GotoKeepsSound(H, cfg, w, r, Idle);
      return;
    }
    SealedRangeSeals(H, cfg, chain, Of(w.rows, chain), from, head, leaves, stamp);
    var cp := SealRange(H, cfg.scheme, cfg.secret, cfg.keyId, chain, from, leaves, stamp).value;
    var cps := Of(w.sealed, chain);
    PutLeavesNoHole(cps, cp);
    PutMoves(cps, cp);
    var w' := Step(H, cfg, w, Put(r, stamp));
    assert Of(w'.sealed, chain) == PutInto(cps, cp);
    assert ChainSound(H, cfg, chain, Of(w.rows, chain), PutInto(cps, cp));
    forall c
      ensures ChainSound(H, cfg, c, Of(w'.rows, c), Of(w'.sealed, c))
      ensures SealedTo(Of(w.sealed, c)) <= SealedTo(Of(w'.sealed, c))
    {
      assert ChainSound(H, cfg, c, Of(w.rows, c), Of(w.sealed, c));
    }
    forall q
      ensures PhaseSound(w', w'.At(q))
    {
      assert PhaseSound(w, w.At(q));
    }
  }

  /** However replicas interleave their reads and puts, in every run the ranges
      of a chain leave no hole, and each checkpoint is signed over the tree of
      the very rows it names. */
  lemma {:induction false} ReplicasLeaveNoHole(H: HashFn, cfg: Config, actions: seq<Action>)
    requires cfg.scheme.Correct()
    ensures WorldSound(H, cfg, Run(H, cfg, actions))
  {
    if actions == [] {
      assert forall chain: ChainId :: SealedTo(Of(map[], chain)) == 0;
    } else {
      ReplicasLeaveNoHole(H, cfg, actions[..|actions| - 1]);
      StepKeepsSound(H, cfg, Run(H, cfg, actions[..|actions| - 1]), actions[|actions| - 1]);
    }
  }

  // ----- One checkpointer -----

  /** Ranges that abut, from position 1 on. */
  ghost predicate Abut(cps: seq<Checkpoint>) {
    forall i :: 0 <= i < |cps| ==> AbutsAt(cps, i)
  }

  ghost predicate AbutsAt(cps: seq<Checkpoint>, i: nat)
    requires i < |cps|
  {
    Continues(if i == 0 then 0 else cps[i - 1].body.seqTo, cps[i])
  }

  /** A proper range that starts right after `last`. */
  predicate Continues(last: nat, cp: Checkpoint) {
    cp.body.seqFrom == last + 1 && cp.body.seqFrom <= cp.body.seqTo
  }

  function LastTo(cps: seq<Checkpoint>): nat {
    if cps == [] then 0 else cps[|cps| - 1].body.seqTo
  }

  lemma AbutOneMore(t: seq<Checkpoint>, last: Checkpoint)
    ensures Abut(t + [last]) <==> Abut(t) && Continues(LastTo(t), last)
  {
    hide Continues;
    var cps := t + [last];
    forall i | 0 <= i < |t|
      ensures AbutsAt(t, i) <==> AbutsAt(cps, i)
    {
      assert t[i] == cps[i] && (i > 0 ==> t[i - 1] == cps[i - 1]);
    }
    assert AbutsAt(cps, |t|) <==> Continues(LastTo(t), last) by {
      assert cps[|t|] == last && (|t| > 0 ==> cps[|t| - 1] == t[|t| - 1]);
    }
  }

  lemma {:induction false} AbuttingReach(cps: seq<Checkpoint>)
    requires Abut(cps)
    ensures SealedTo(cps) == LastTo(cps) && NoHole(cps)
  {
    hide Furthest, NoHole, SealedTo, Abut;
    if cps == [] {
      NothingSealed();
    } else {
      var t, last := cps[..|cps| - 1], cps[|cps| - 1];
      assert cps == t + [last];
      AbutOneMore(t, last);
      AbuttingReach(t);
      ContinuedReach(t, last);
    }
  }

  lemma NothingSealed()
    ensures SealedTo([]) == 0 && NoHole([])
  {
  }

  lemma ContinuedReach(t: seq<Checkpoint>, last: Checkpoint)
    requires NoHole(t) && Continues(SealedTo(t), last)
    ensures SealedTo(t + [last]) == last.body.seqTo && NoHole(t + [last])
  {
    hide Furthest, NoHole, SealedTo;
    FurthestIsMax(t);
    assert !Conflicts(t, last);
    PutLeavesNoHole(t, last);
    PutMoves(t, last);
  }

  /** The store of checkpoints, and the chains as the checkpointer sees them.
      Every call may fail, and a read of leaves may come back short. */
  class Stores {
    const rows: Table<AuditEvent>
    var sealed: Table<Checkpoint>

    constructor (rows: Table<AuditEvent>, sealed: Table<Checkpoint>)
      ensures this.rows == rows && this.sealed == sealed
    {
      this.rows, this.sealed := rows, sealed;
    }

    method HeadSeq(chain: ChainId) returns (ok: bool, head: nat)
      ensures ok ==> head == HeadPos(Of(rows, chain))
    {
      ok := *;
      head := HeadPos(Of(rows, chain));
    }

    method LastSealed(chain: ChainId) returns (ok: bool, last: Option<Checkpoint>)
      ensures ok ==> last == Furthest(Of(sealed, chain))
    {
      ok := *;
      last := Furthest(Of(sealed, chain));
    }

    method Leaves(chain: ChainId, from: nat, to: nat) returns (ok: bool, leaves: seq<Hash32>)
      ensures
        var all := StoredHashes(Between(Of(rows, chain), from, to));
        ok ==> leaves == all || |leaves| < |all|
    {
      ok := *;
      leaves := StoredHashes(Between(Of(rows, chain), from, to));
      var short: bool := *;
      if short && leaves != [] {
        leaves := leaves[1..];
      }
    }

    /** A write that reports failure may have landed all the same. */
    method Put(chain: ChainId, cp: Checkpoint) returns (ok: bool)
      modifies this
      ensures sealed == old(sealed)[chain := PutInto(Of(old(sealed), chain), cp)] || (!ok && sealed == old(sealed))
    {
      if * {
        return false;
      }
      sealed := sealed[chain := PutInto(Of(sealed, chain), cp)];
      ok := *;
    }
  }

  datatype SealReport = SealReport(chainsExamined: nat, checkpointsWritten: nat, eventsSealed: nat, maxLag: nat)

  /** Whether a tick at `now` has to seal the chain. */
  predicate DueChain(cfg: Config, rows: seq<AuditEvent>, cps: seq<Checkpoint>, now: i64) {
    SealedTo(cps) < HeadPos(rows) && Due(cfg, HeadPos(rows) - SealedTo(cps), Furthest(cps), now)
  }

  /** As many rows above the last position sealed as positions. */
  predicate Unbroken(rows: seq<AuditEvent>, cps: seq<Checkpoint>) {
    |Between(rows, SealedTo(cps) + 1, HeadPos(rows))| == HeadPos(rows) - SealedTo(cps)
  }

  /** Due, and with a gap to seal over: a tick ends here. */
  predicate Stuck(cfg: Config, rows: seq<AuditEvent>, cps: seq<Checkpoint>, now: i64) {
    DueChain(cfg, rows, cps, now) && !Unbroken(rows, cps)
  }

  /** What the sealed chains among `chains` add up to, how many they are, and
      the longest run left unsealed in the others. */
  function Totals(cfg: Config, rows: Table<AuditEvent>, cps: Table<Checkpoint>, chains: seq<ChainId>, now: i64): SealReport {
    if chains == [] then SealReport(0, 0, 0, 0)
    else
      var c, t := chains[|chains| - 1], Totals(cfg, rows, cps, chains[..|chains| - 1], now);
      OneMore(cfg, t, Of(rows, c), Of(cps, c), now)
  }

  function OneMore(cfg: Config, t: SealReport, rows: seq<AuditEvent>, cps: seq<Checkpoint>, now: i64): SealReport {
    var open := if SealedTo(cps) < HeadPos(rows) then HeadPos(rows) - SealedTo(cps) else 0;
    var examined := t.(chainsExamined := t.chainsExamined + 1);
    if DueChain(cfg, rows, cps, now) then
      examined.(checkpointsWritten := t.checkpointsWritten + 1, eventsSealed := t.eventsSealed + open)
    else examined.(maxLag := if open > t.maxLag then open else t.maxLag)
  }

  /** The chains before position `k` have been dealt with, the others are as
      they were. */
  ghost predicate Ticked(
    H: HashFn, cfg: Config, rows: Table<AuditEvent>, before: Table<Checkpoint>, after: Table<Checkpoint>,
    chains: seq<ChainId>, k: nat, now: i64)
    requires k <= |chains|
  {
    && (forall c :: c !in chains[..k] ==> Of(after, c) == Of(before, c))
    && (forall c :: c in chains[..k] ==> Dealt(H, cfg, c, Of(rows, c), Of(before, c), Of(after, c), now))
  }

  predicate Distinct(chains: seq<ChainId>) {
    forall i, j :: 0 <= i < j < |chains| ==> chains[i] != chains[j]
  }

  /** One tick: the rows it found, the chains it listed, how far it got, when. */
  datatype Ticking = Ticking(rows: Table<AuditEvent>, chains: seq<ChainId>, done: nat, now: i64)

  /** It dealt with the chains it got past, none of which was stuck. */
  ghost predicate TickedBy(H: HashFn, cfg: Config, t: Ticking, before: Table<Checkpoint>, after: Table<Checkpoint>) {
    && t.done <= |t.chains| && Distinct(t.chains)
    && Ticked(H, cfg, t.rows, before, after, t.chains, t.done, t.now)
    && (forall k :: 0 <= k < t.done ==> !Stuck(cfg, Of(t.rows, t.chains[k]), Of(before, t.chains[k]), t.now))
  }

  /** The checkpoint that seals what is new of the chain, signed at `stamp`. */
  function NextSeal(H: HashFn, cfg: Config, chain: ChainId, rows: seq<AuditEvent>, cps: seq<Checkpoint>, stamp: i64): Result<Checkpoint, ChainError> {
    if SealedTo(cps) < HeadPos(rows) < U64_MAX && Unbroken(rows, cps) then
      SealRange(
        H, cfg.scheme, cfg.secret, cfg.keyId, chain, SealedTo(cps) + 1,
        StoredHashes(Between(rows, SealedTo(cps) + 1, HeadPos(rows))), stamp)
    else Err(EmptyRange)
  }

  /** The chain's checkpoints after a tick that signs, if it does, at `stamp`. */
  function AfterTick(
    H: HashFn, cfg: Config, chain: ChainId, rows: seq<AuditEvent>, cps: seq<Checkpoint>, now: i64, stamp: i64): seq<Checkpoint>
  {
    if DueChain(cfg, rows, cps, now) && NextSeal(H, cfg, chain, rows, cps, stamp).Ok? then
      cps + [NextSeal(H, cfg, chain, rows, cps, stamp).value]
    else cps
  }

  /** Sealed up to the head exactly if due and without a gap. */
  ghost predicate Dealt(
    H: HashFn, cfg: Config, chain: ChainId, rows: seq<AuditEvent>, before: seq<Checkpoint>, after: seq<Checkpoint>, now: i64)
  {
    exists stamp :: after == AfterTick(H, cfg, chain, rows, before, now, stamp)
  }

  /** What the next checkpoint is. */
  lemma NextSealSeals(H: HashFn, cfg: Config, chain: ChainId, rows: seq<AuditEvent>, cps: seq<Checkpoint>, stamp: i64)
    requires cfg.scheme.Correct() && Rising(rows) && SealedTo(cps) < HeadPos(rows) < U64_MAX && Unbroken(rows, cps)
    ensures
      var r := NextSeal(H, cfg, chain, rows, cps, stamp);
      && r.Ok? && Seals(H, cfg, chain, rows, r.value)
      && r.value.body.seqFrom == SealedTo(cps) + 1 && r.value.body.seqTo == HeadPos(rows) && r.value.body.builtAt == stamp
  {
    hide TreeRoot, SealRange, Seals, Furthest, SealedTo, Rising, Between, HeadPos;
    var from, head := SealedTo(cps) + 1, HeadPos(rows);
    SealedRangeSeals(H, cfg, chain, rows, from, head, StoredHashes(Between(rows, from, head)), stamp);
  }

  /** A tick leaves each chain's checkpoints sound, abutting if they were, and
      reaching the head if it was due and had no gap to seal over. */
  lemma AfterTickSound(H: HashFn, cfg: Config, chain: ChainId, rows: seq<AuditEvent>, cps: seq<Checkpoint>, now: i64, stamp: i64)
    requires cfg.scheme.Correct() && ChainSound(H, cfg, chain, rows, cps)
    ensures
      var after := AfterTick(H, cfg, chain, rows, cps, now, stamp);
      && ChainSound(H, cfg, chain, rows, after)
      && (Abut(cps) ==> Abut(after))
      && if DueChain(cfg, rows, cps, now) && Unbroken(rows, cps) then SealedTo(after) == HeadPos(rows) && |after| == |cps| + 1
         else after == cps
  {
    hide TreeRoot, VerifyCheckpoint, Furthest, NoHole, SealedTo, Abut, Due, Seals, SealRange, Rising, Between, HeadPos;
    if DueChain(cfg, rows, cps, now) && Unbroken(rows, cps) {
      NextSealSeals(H, cfg, chain, rows, cps, stamp);
      var cp := NextSeal(H, cfg, chain, rows, cps, stamp).value;
      FurthestIsMax(cps);
      SealsProper(H, cfg, chain, rows, cp);
      assert !Conflicts(cps, cp);
      PutLeavesNoHole(cps, cp);
      PutMoves(cps, cp);
      AbutOneMore(cps, cp);
      if Abut(cps) {
        AbuttingReach(cps);
      }
    }
  }

  lemma SealsProper(H: HashFn, cfg: Config, chain: ChainId, rows: seq<AuditEvent>, cp: Checkpoint)
    requires Seals(H, cfg, chain, rows, cp)
    ensures 1 <= cp.body.seqFrom <= cp.body.seqTo <= HeadPos(rows)
  {
  }

  /** One chain of a tick.  Where a call fails, or a gap leaves the leaves short, the
      chain is as it was, unless the failing call was the write and it landed all the
      same. */
  method TickChain(H: HashFn, cfg: Config, stores: Stores, chain: ChainId, now: i64, report: SealReport)
    returns (ok: bool, next: SealReport, ghost stamp: i64)
    requires cfg.scheme.Correct()
    requires ChainSound(H, cfg, chain, Of(stores.rows, chain), Of(stores.sealed, chain))
    modifies stores
    ensures forall c :: c != chain ==> Of(stores.sealed, c) == Of(old(stores.sealed), c)
    ensures Of(stores.sealed, chain) == AfterTick(H, cfg, chain, Of(stores.rows, chain), Of(old(stores.sealed), chain), now, stamp)
            || (!ok && stores.sealed == old(stores.sealed))
    ensures Stuck(cfg, Of(stores.rows, chain), Of(old(stores.sealed), chain), now) ==> !ok && stores.sealed == old(stores.sealed)
    ensures ok ==> next == OneMore(cfg, report, Of(stores.rows, chain), Of(old(stores.sealed), chain), now)
  {
    hide TreeRoot, SealRange, Seals, Furthest, NoHole, Rising, Between, HeadPos;
    var rows, cps := Of(stores.rows, chain), Of(stores.sealed, chain);
    next, stamp := report.(chainsExamined := report.chainsExamined + 1), 0;
    FurthestIsMax(cps);
    ghost var from, top := SealedTo(cps) + 1, HeadPos(rows);
    if from <= top + 1 {
      CountIff(rows, from, top);
    }
    var got, head := stores.HeadSeq(chain);
    if !got {
      return false, next, stamp;
    }
    if head == 0 {
      return true, next, stamp;
    }
    var read, last := stores.LastSealed(chain);
    if !read {
      return false, next, stamp;
    }
    var seqFrom := if last.Some? then last.value.body.seqTo + 1 else 1;
    if seqFrom > head {
      return true, next, stamp;
    }
    var pending := head - seqFrom + 1;
    if !Due(cfg, pending, last, now) {
      next := next.(maxLag := if pending > next.maxLag then pending else next.maxLag);
      return true, next, stamp;
    }
    var came, leaves := stores.Leaves(chain, seqFrom, head);
    if !came || |leaves| != pending {
      return false, next, stamp;
    }
    var clock: i64 := *;
    stamp := clock;
    NextSealSeals(H, cfg, chain, rows, cps, stamp);
    var cp := SealRange(H, cfg.scheme, cfg.secret, cfg.keyId, chain, seqFrom, leaves, clock).value;
    assert !Conflicts(cps, cp);
    ok := stores.Put(chain, cp);
    if ok {
      next := next.(checkpointsWritten := next.checkpointsWritten + 1, eventsSealed := next.eventsSealed + pending);
    }
  }

  /** Seal every chain that is due.  A call that fails, or leaves that come back
      short, end the tick; what was sealed before that stands, and so does a write
      that landed and was reported as failed.  No chain that is due and has a gap is
      got past. */
  method Tick(H: HashFn, cfg: Config, stores: Stores, chains: seq<ChainId>, now: i64)
    returns (ok: bool, report: SealReport, ghost done: nat)
    requires cfg.scheme.Correct()
    requires Distinct(chains)
    requires forall c :: ChainSound(H, cfg, c, Of(stores.rows, c), Of(stores.sealed, c))
    modifies stores
    ensures TickedBy(H, cfg, Ticking(stores.rows, chains, done, now), old(stores.sealed), stores.sealed)
    ensures ok ==> done == |chains|
    ensures ok ==> report == Totals(cfg, stores.rows, old(stores.sealed), chains, now)
    ensures forall c :: ChainSound(H, cfg, c, Of(stores.rows, c), Of(stores.sealed, c))
    ensures (forall c :: Abut(Of(old(stores.sealed), c))) ==> forall c :: Abut(Of(stores.sealed, c))
  {
    hide ChainSound, OneMore, AfterTick, Abut, TickedBy, Stuck, Distinct;
    report := SealReport(0, 0, 0, 0);
    ghost var before := stores.sealed;
    ok, done := true, 0;
    TickedNone(H, cfg, stores.rows, before, chains, now);
    for k := 0 to |chains|
      invariant ok && done == k
      invariant TickedBy(H, cfg, Ticking(stores.rows, chains, k, now), before, stores.sealed)
      invariant report == Totals(cfg, stores.rows, before, chains[..k], now)
    {
      var chain := chains[k];
      assert chains[..k + 1][..k] == chains[..k];
      ghost var earlier, stamp := stores.sealed, 0;
      TickedSound(H, cfg, Ticking(stores.rows, chains, k, now), before, earlier);
      ok, report, stamp := TickChain(H, cfg, stores, chain, now, report);
      TickedOneMore(H, cfg, Ticking(stores.rows, chains, k, now), before, earlier, stores.sealed, stamp);
      if !ok {
        if stores.sealed != earlier {
          done := k + 1;
        }
        break;
      }
      done := k + 1;
    }
    assert chains[..|chains|] == chains;
    TickedSound(H, cfg, Ticking(stores.rows, chains, done, now), before, stores.sealed);
  }

  lemma TickedNone(H: HashFn, cfg: Config, rows: Table<AuditEvent>, before: Table<Checkpoint>, chains: seq<ChainId>, now: i64)
    requires Distinct(chains)
    ensures TickedBy(H, cfg, Ticking(rows, chains, 0, now), before, before)
  {
    hide AfterTick, Stuck, Distinct;
  }

  /** One chain more: it was as it had been until now, and if it was not stuck, the
      tick has got past it. */
  lemma TickedOneMore(
    H: HashFn, cfg: Config, t: Ticking, before: Table<Checkpoint>, earlier: Table<Checkpoint>, after: Table<Checkpoint>, stamp: i64)
    requires TickedBy(H, cfg, t, before, earlier) && t.done < |t.chains|
    requires forall c :: c != t.chains[t.done] ==> Of(after, c) == Of(earlier, c)
    ensures
      var c := t.chains[t.done];
      && Of(earlier, c) == Of(before, c)
      && (Of(after, c) == AfterTick(H, cfg, c, Of(t.rows, c), Of(earlier, c), t.now, stamp)
          && !Stuck(cfg, Of(t.rows, c), Of(before, c), t.now) ==>
            TickedBy(H, cfg, t.(done := t.done + 1), before, after))
  {
    hide AfterTick, Stuck, Dealt, Distinct, Of;
    var c := t.chains[t.done];
    NotYet(t.chains, t.done);
    assert t.chains[..t.done + 1] == t.chains[..t.done] + [c];
    if Of(after, c) == AfterTick(H, cfg, c, Of(t.rows, c), Of(earlier, c), t.now, stamp) {
      DealtAt(H, cfg, c, Of(t.rows, c), Of(earlier, c), t.now, stamp);
    }
  }

  lemma NotYet(chains: seq<ChainId>, k: nat)
    requires Distinct(chains) && k < |chains|
    ensures chains[k] !in chains[..k]
  {
  }

  lemma DealtAt(H: HashFn, cfg: Config, chain: ChainId, rows: seq<AuditEvent>, before: seq<Checkpoint>, now: i64, stamp: i64)
    ensures Dealt(H, cfg, chain, rows, before, AfterTick(H, cfg, chain, rows, before, now, stamp), now)
  {
    hide AfterTick;
  }

  /** A tick, whole or cut short, leaves every chain as sound as it found it. */
  lemma TickedSound(H: HashFn, cfg: Config, t: Ticking, before: Table<Checkpoint>, after: Table<Checkpoint>)
    requires cfg.scheme.Correct() && TickedBy(H, cfg, t, before, after)
    requires forall c :: ChainSound(H, cfg, c, Of(t.rows, c), Of(before, c))
    ensures forall c :: ChainSound(H, cfg, c, Of(t.rows, c), Of(after, c))
    ensures (forall c :: Abut(Of(before, c))) ==> forall c :: Abut(Of(after, c))
  {
    hide ChainSound, AfterTick, Abut, Stuck, Distinct;
    forall c
      ensures ChainSound(H, cfg, c, Of(t.rows, c), Of(after, c))
      ensures Abut(Of(before, c)) ==> Abut(Of(after, c))
    {
      assert ChainSound(H, cfg, c, Of(t.rows, c), Of(before, c));
      if c in t.chains[..t.done] {
        var stamp :| Of(after, c) == AfterTick(H, cfg, c, Of(t.rows, c), Of(before, c), t.now, stamp);
        AfterTickSound(H, cfg, c, Of(t.rows, c), Of(before, c), t.now, stamp);
      }
    }
  }

  /** What a whole tick reports: the chains there are, the checkpoints that were added,
      the positions they seal, and the longest run it left unsealed. */
  lemma {:induction false} TotalsAddUp(
    H: HashFn, cfg: Config, rows: Table<AuditEvent>, before: Table<Checkpoint>, after: Table<Checkpoint>, chains: seq<ChainId>, now: i64)
    requires cfg.scheme.Correct() && forall c | c in chains ::
               && ChainSound(H, cfg, c, Of(rows, c), Of(before, c)) && !Stuck(cfg, Of(rows, c), Of(before, c), now)
               && Dealt(H, cfg, c, Of(rows, c), Of(before, c), Of(after, c), now)
    ensures
      var t := Totals(cfg, rows, before, chains, now);
      && t.chainsExamined == |chains|
      && t.checkpointsWritten == Added(before, after, chains)
      && t.eventsSealed == Advanced(before, after, chains)
      && (forall c | c in chains :: LagOf(Of(rows, c), Of(after, c)) <= t.maxLag)
      && (t.maxLag > 0 ==> exists c :: c in chains && LagOf(Of(rows, c), Of(after, c)) == t.maxLag)
  {
    hide ChainSound, Dealt, Due, LagOf, Stuck, Furthest, SealedTo, HeadPos, OneMore;
    if chains != [] {
      var n := |chains| - 1;
      var c := chains[n];
      assert chains == chains[..n] + [c];
      TotalsAddUp(H, cfg, rows, before, after, chains[..n], now);
      assert c in chains;
      OneAdded(H, cfg, c, Of(rows, c), Of(before, c), Of(after, c), now, Totals(cfg, rows, before, chains[..n], now));
    }
  }

  /** How many checkpoints were added to the chains. */
  function Added(before: Table<Checkpoint>, after: Table<Checkpoint>, chains: seq<ChainId>): int {
    if chains == [] then 0
    else
      var c := chains[|chains| - 1];
      Added(before, after, chains[..|chains| - 1]) + |Of(after, c)| - |Of(before, c)|
  }

  /** How far the chains' sealed positions advanced, in all. */
  function Advanced(before: Table<Checkpoint>, after: Table<Checkpoint>, chains: seq<ChainId>): int {
    if chains == [] then 0
    else
      var c := chains[|chains| - 1];
      Advanced(before, after, chains[..|chains| - 1]) + SealedTo(Of(after, c)) - SealedTo(Of(before, c))
  }

  lemma OneAdded(
    H: HashFn, cfg: Config, chain: ChainId, rows: seq<AuditEvent>, cps: seq<Checkpoint>, after: seq<Checkpoint>, now: i64, t: SealReport)
    requires cfg.scheme.Correct() && ChainSound(H, cfg, chain, rows, cps) && !Stuck(cfg, rows, cps, now)
    requires Dealt(H, cfg, chain, rows, cps, after, now)
    ensures
      var t' := OneMore(cfg, t, rows, cps, now);
      && t'.chainsExamined == t.chainsExamined + 1
      && t'.checkpointsWritten - t.checkpointsWritten == |after| - |cps|
      && t'.eventsSealed - t.eventsSealed == SealedTo(after) - SealedTo(cps)
      && t'.maxLag == (if LagOf(rows, after) > t.maxLag then LagOf(rows, after) else t.maxLag)
  {
    hide ChainSound, AfterTick, Due, Furthest, SealedTo, HeadPos, Unbroken;
    var stamp :| after == AfterTick(H, cfg, chain, rows, cps, now, stamp);
    AfterTickSound(H, cfg, chain, rows, cps, now, stamp);
  }

  /** What a tick promises of every chain it got past.  A chain with events has a
      checkpoint; fewer than `everyN` positions are left unsealed, and none waits
      longer than `everyT` since the last checkpoint.  And nothing is sealed early. */
  lemma TickedInTime(H: HashFn, cfg: Config, t: Ticking, before: Table<Checkpoint>, after: Table<Checkpoint>, k: nat)
    requires cfg.scheme.Correct() && TickedBy(H, cfg, t, before, after) && k < t.done && Of(t.rows, t.chains[k]) != []
    requires ChainSound(H, cfg, t.chains[k], Of(t.rows, t.chains[k]), Of(before, t.chains[k]))
    ensures
      var head, cps, cps' := HeadPos(Of(t.rows, t.chains[k])), Of(before, t.chains[k]), Of(after, t.chains[k]);
      && cps' != [] && SealedTo(cps') <= head
      && (SealedTo(cps') < head ==>
            && head - SealedTo(cps') < cfg.everyN
            && (cfg.everyT < 0x8000_0000_0000_0000 ==> t.now - Furthest(cps').value.body.builtAt < cfg.everyT))
      && (cps' != cps ==>
            || head - SealedTo(cps) >= cfg.everyN || cps == []
            || t.now - Furthest(cps).value.body.builtAt >= cfg.everyT || cfg.everyT == 0)
  {
    hide AfterTick, ChainSound, TreeRoot, VerifyCheckpoint, NextSeal, Between, Rising;
    var c := t.chains[k];
    assert c in t.chains[..t.done];
    var rows, cps := Of(t.rows, c), Of(before, c);
    var stamp :| Of(after, c) == AfterTick(H, cfg, c, rows, cps, t.now, stamp);
    AfterTickSound(H, cfg, c, rows, cps, t.now, stamp);
    FurthestIsMax(cps);
    HeadAbove(H, cfg, c, rows, cps);
    hide SealedTo, HeadPos, Furthest;
    NothingSealed();
  }

  lemma HeadAbove(H: HashFn, cfg: Config, chain: ChainId, rows: seq<AuditEvent>, cps: seq<Checkpoint>)
    requires ChainSound(H, cfg, chain, rows, cps) && rows != []
    ensures HeadPos(rows) > 0 && SealedTo(cps) <= HeadPos(rows)
  {
    hide TreeRoot, VerifyCheckpoint, NoHole, Between;
    FurthestIsMax(cps);
  }

  // ----- One checkpointer over whole runs -----

  /** Nobody but `r` checkpoints; rows may be appended at any time. */
  predicate Sole(actions: seq<Action>, r: nat) {
    forall a | a in actions :: a.Append? || a.replica == r
  }

  /** The range the phase is about starts right after what is sealed. */
  ghost predicate StartsNext(w: World, p: Phase) {
    match p
    case SawLast(chain, _, from) => from == SealedTo(Of(w.sealed, chain)) + 1
    case SawLeaves(chain, _, from, _) => from == SealedTo(Of(w.sealed, chain)) + 1
    case _ => true
  }

  ghost predicate SoleSound(w: World, r: nat) {
    && (forall q :: q != r ==> w.At(q).Idle?)
    && StartsNext(w, w.At(r))
    && forall c :: Abut(Of(w.sealed, c))
  }

  lemma SoleStep(H: HashFn, cfg: Config, w: World, r: nat, a: Action)
    requires cfg.scheme.Correct() && WorldSound(H, cfg, w) && SoleSound(w, r) && (a.Append? || a.replica == r)
    ensures SoleSound(Step(H, cfg, w, a), r)
  {
    hide ChainSound, TreeRoot, SealRange, Furthest, SealedTo, Due, Abut, Rising, Between, HeadPos;
    var w' := Step(H, cfg, w, a);
    if a.Put? && w.At(r).SawLeaves? {
      SolePut(H, cfg, w, r, a.stamp);
    } else {
      assert w'.replicas == w.replicas || w'.replicas == w.replicas[r := w'.At(r)];
      OthersIdle(w, w', r);
    }
  }

  lemma SolePut(H: HashFn, cfg: Config, w: World, r: nat, stamp: i64)
    requires cfg.scheme.Correct() && WorldSound(H, cfg, w) && SoleSound(w, r) && w.At(r).SawLeaves?
    ensures SoleSound(Step(H, cfg, w, Put(r, stamp)), r)
  {
    hide TreeRoot, VerifyCheckpoint, SealRange, Furthest, SealedTo, Seals, NoHole, Abut, Rising, Between, HeadPos;
    var SawLeaves(chain, head, from, leaves) := w.At(r);
    assert PhaseSound(w, w.At(r)) && ChainSound(H, cfg, chain, Of(w.rows, chain), Of(w.sealed, chain));
    if |leaves| != head - from + 1 {
      OthersIdle(w, Step(H, cfg, w, Put(r, stamp)), r);
      return;
    }
    SealedRangeSeals(H, cfg, chain, Of(w.rows, chain), from, head, leaves, stamp);
    var cp := SealRange(H, cfg.scheme, cfg.secret, cfg.keyId, chain, from, leaves, stamp).value;
    var cps := Of(w.sealed, chain);
    AbuttingReach(cps);
    FurthestIsMax(cps);
    assert !Conflicts(cps, cp);
    AbutOneMore(cps, cp);
    var w' := Step(H, cfg, w, Put(r, stamp));
    assert Of(w'.sealed, chain) == cps + [cp];
    assert Continues(LastTo(cps), cp);
    assert w'.At(r).Idle? && w'.replicas == w.replicas[r := Idle];
    OthersIdle(w, w', r);
    forall c
      ensures Abut(Of(w'.sealed, c))
    {
      assert c != chain ==> Of(w'.sealed, c) == Of(w.sealed, c);
      assert Abut(Of(w.sealed, c));
    }
  }

  lemma OthersIdle(w: World, w': World, r: nat)
    requires forall q :: q != r ==> w.At(q).Idle?
    requires w'.replicas == w.replicas || w'.replicas == w.replicas[r := w'.At(r)]
    ensures forall q :: q != r ==> w'.At(q).Idle?
  {
    forall q | q != r
      ensures w'.At(q).Idle?
    {
      assert w.At(q).Idle?;
    }
  }

  /** With one checkpointer, in every run, whatever is appended meanwhile and
      wherever its ticks are cut short, the ranges of a chain abut exactly from 1. */
  lemma {:induction false} SoleCheckpointerAbuts(H: HashFn, cfg: Config, actions: seq<Action>, r: nat)
    requires cfg.scheme.Correct() && Sole(actions, r)
    ensures forall c :: Abut(Of(Run(H, cfg, actions).sealed, c))
    ensures SoleSound(Run(H, cfg, actions), r)
  {
    hide Step, WorldSound, SoleSound;
    if actions == [] {
      NothingSole(r);
    } else {
      var n := |actions| - 1;
      assert forall a | a in actions[..n] :: a in actions;
      SoleCheckpointerAbuts(H, cfg, actions[..n], r);
      ReplicasLeaveNoHole(H, cfg, actions[..n]);
      assert actions[n] in actions;
      SoleStep(H, cfg, Run(H, cfg, actions[..n]), r, actions[n]);
    }
    SoleAbuts(Run(H, cfg, actions), r);
  }

  lemma NothingSole(r: nat)
    ensures SoleSound(World(map[], map[], map[]), r)
  {
  }

  lemma SoleAbuts(w: World, r: nat)
    requires SoleSound(w, r)
    ensures forall c :: Abut(Of(w.sealed, c))
  {
  }

  /** One chain of a tick is four steps of one replica with nothing in between. */
  lemma TickIsSteps(H: HashFn, cfg: Config, w: World, r: nat, chain: ChainId, now: i64, stamp: i64)
    requires cfg.scheme.Correct() && WorldSound(H, cfg, w) && w.At(r).Idle?
    ensures
      var w' := Step(H, cfg, Step(H, cfg, Step(H, cfg, Step(H, cfg, w, ReadHead(r, chain)), ReadLast(r, now)), ReadLeaves(r)), Put(r, stamp));
      && w'.rows == w.rows && w'.At(r).Idle?
      && Of(w'.sealed, chain) == AfterTick(H, cfg, chain, Of(w.rows, chain), Of(w.sealed, chain), now, stamp)
      && forall c :: c != chain ==> Of(w'.sealed, c) == Of(w.sealed, c)
  {
    hide ChainSound, SealRange, Furthest, SealedTo, Due, Between, HeadPos, Unbroken, NextSeal, PutInto;
    var rows, cps := Of(w.rows, chain), Of(w.sealed, chain);
    assert ChainSound(H, cfg, chain, rows, cps);
    var w1 := Step(H, cfg, w, ReadHead(r, chain));
    var w2 := Step(H, cfg, w1, ReadLast(r, now));
    if DueChain(cfg, rows, cps, now) {
      var from, head := SealedTo(cps) + 1, HeadPos(rows);
      assert w1.At(r) == SawHead(chain, head);
      assert w2.At(r) == SawLast(chain, head, from);
      var w3 := Step(H, cfg, w2, ReadLeaves(r));
      PutIsStep(H, cfg, w3, r, chain, stamp);
    }
  }

  lemma PutIsStep(H: HashFn, cfg: Config, w: World, r: nat, chain: ChainId, stamp: i64)
    requires cfg.scheme.Correct() && ChainSound(H, cfg, chain, Of(w.rows, chain), Of(w.sealed, chain))
    requires
      var rows, cps := Of(w.rows, chain), Of(w.sealed, chain);
      var from, head := SealedTo(cps) + 1, HeadPos(rows);
      from <= head && w.At(r) == SawLeaves(chain, head, from, StoredHashes(Between(rows, from, head)))
    ensures
      var w', rows, cps := Step(H, cfg, w, Put(r, stamp)), Of(w.rows, chain), Of(w.sealed, chain);
      && w'.rows == w.rows && w'.At(r).Idle?
      && (NextSeal(H, cfg, chain, rows, cps, stamp).Ok? <==> Unbroken(rows, cps))
      && Of(w'.sealed, chain) == (if Unbroken(rows, cps) then cps + [NextSeal(H, cfg, chain, rows, cps, stamp).value] else cps)
      && forall c :: c != chain ==> Of(w'.sealed, c) == Of(w.sealed, c)
  {
    hide TreeRoot, VerifyCheckpoint, SealRange, Furthest, SealedTo, Seals, NoHole, Rising, Between, HeadPos;
    var rows, cps := Of(w.rows, chain), Of(w.sealed, chain);
    if Unbroken(rows, cps) {
      NextSealSeals(H, cfg, chain, rows, cps, stamp);
      var cp := NextSeal(H, cfg, chain, rows, cps, stamp).value;
      SealsProper(H, cfg, chain, rows, cp);
      FurthestIsMax(cps);
      assert !Conflicts(cps, cp);
    }
  }

  // ----- Lag -----

  function LagOf(rows: seq<AuditEvent>, cps: seq<Checkpoint>): nat {
    if HeadPos(rows) > SealedTo(cps) then HeadPos(rows) - SealedTo(cps) else 0
  }

  /** Unsealed positions per chain, for the metric. */
  method Lag(stores: Stores, chains: seq<ChainId>) returns (ok: bool, out: seq<(ChainId, nat)>)
    ensures ok ==> |out| == |chains|
    ensures ok ==> forall i :: 0 <= i < |out| ==> out[i] == (chains[i], LagOf(Of(stores.rows, chains[i]), Of(stores.sealed, chains[i])))
  {
    hide Furthest;
    ok, out := true, [];
    for k := 0 to |chains|
      invariant |out| == k
      invariant forall i :: 0 <= i < k ==> out[i] == (chains[i], LagOf(Of(stores.rows, chains[i]), Of(stores.sealed, chains[i])))
    {
      var got, head := stores.HeadSeq(chains[k]);
      if !got {
        return false, out;
      }
      var read, last := stores.LastSealed(chains[k]);
      if !read {
        return false, out;
      }
      var upTo := if last.Some? then last.value.body.seqTo else 0;
      out := out + [(chains[k], if head > upTo then head - upTo else 0)];
    }
  }

  /** Since sealing leaves no hole, the lag is exactly what no checkpoint covers:
      the last positions, and only those. */
  lemma LagIsUnsealed(H: HashFn, cfg: Config, chain: ChainId, rows: seq<AuditEvent>, cps: seq<Checkpoint>, n: nat)
    requires ChainSound(H, cfg, chain, rows, cps) && 1 <= n <= HeadPos(rows)
    ensures !SealedAt(cps, n) <==> n > HeadPos(rows) - LagOf(rows, cps)
  {
    hide TreeRoot, VerifyCheckpoint, Furthest, Rising, Between, HeadPos;
    FurthestIsMax(cps);
    if SealedAt(cps, n) {
      var cp :| cp in cps && cp.body.seqFrom <= n <= cp.body.seqTo;
      assert cp.body.seqTo <= SealedTo(cps);
    }
    if cps != [] {
      assert Seals(H, cfg, chain, rows, Furthest(cps).value);
    }
  }
}
