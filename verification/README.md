# Ancre, modelled and proved

Ancre keeps a tamper-evident record of AI requests. An ingester chains events, a
control plane signs Merkle roots over ranges of them, and an offline verifier
checks both. This project models that path, and the configuration and telemetry
around it, as Dafny programs and state machines, and proves what they promise.

Conventions that hold throughout:

- The hash is a parameter `H`, any function from byte strings to 32-byte digests.
  No binding result assumes it injective. Each says "equal, or two different
  strings among the ones these computations hashed have the same digest".
- Signatures are a parameter with one law: what a secret signs, its public key
  accepts. A result about forgeries says which bodies' payloads the trusted keys
  accept, and nothing else about the scheme. Whether bytes are valid UTF-8 is a
  parameter too.
- The world decides: which calls fail, what the bus delivers and how often, in
  which order a store returns rows, what the clocks show, how replicas and tasks
  interleave. Results hold for every choice.
- Code that updates state in place is a class or a loop, proved equal to a
  function on values or to steps of a state machine; the promises are proved
  about that function or machine.  Where machine and class are two, a ghost `View`
  of the class is shown to go through steps of the machine with nothing in between:
  in the contracts of the snapshot builder, of `Emit`, `Fill`, `Flush` and `Recover`,
  and for `TickChain` by `Checkpointer.TickIsSteps`.

| module | what it models |
|---|---|
| `Wrappers`, `Hashing` | option, result, bytes, digests, collisions |
| `Merkle` | tree roots, audit paths, the two loops that recompute a root |
| `Canon`, `CanonTheorems` | canonical CBOR: rewriting, writing, decoding |
| `Events`, `Chain` | the hashed fields of an event, the chain rule |
| `Verify`, `VerifyTheorems` | the verifier's walk and what its report means |
| `Checkpoints`, `Attest` | signed checkpoints, inclusion proofs, packs |
| `Positions` | rows at their own positions, ranges of them, gaps |
| `Checkpointer`, `Stalls` | sealing by one checkpointer or several replicas; what a gap does to it |
| `Cursors`, `ChainWriters` | the per-chain cursor: dedupe memory, rollback, resume |
| `Batches`, `BatchTheorems`, `Pipeline` | ingesting a batch: functions, results, classes |
| `Heartbeats`, `Cutoffs` | heartbeats; pulls dropped midway |
| `IngestRuns`, `Bus` | whole runs, the bus consumer |
| `DedupeReach` | how far deduplication reaches over whole runs |
| `EndToEnd` | from deliveries to attestation |
| `Sse` | the incremental SSE frame scanner |
| `Config`, `Contents`, `Snapshots` | snapshots, their content hash, order and envelope |
| `Publishing`, `Builders` | publication by several replicas; the builder as a class |
| `Resolver`, `Staleness` | pin resolution; a gateway node over time |
| `Drops`, `Telemetry`, `Batcher` | drop accounting, the fork under every interleaving, the drain |

## Where the code and its comments disagree

- `crates/ancre-ingester/src/bus.rs:246-261` races the pull against the heartbeat
  tick, and drops the pull when the tick comes first. The comments of
  `pipeline.rs` and `bus.rs` speak of store failures only. A pull dropped after
  chaining and before its insert got through leaves its writers ahead of the
  store and its rollback map lost. The invariant survives a step exactly if
  nothing was chained that is not stored (`Cutoffs.CutSoundIff`,
  `IngestRuns.NextSoundIff`), a run exactly if no step of it leaves anything so
  (`IngestRuns.AlwaysSoundIff`); a restart right after such a step heals it
  (`IngestRuns.RunSound`). Otherwise the redelivery is taken for a duplicate, acked
  and never stored (`IngestRuns.StrandedIsAckedUnstored`,
  `IngestRuns.CutThenAckedUnstored`), and the next event stored leaves a gap
  (`Cutoffs.StrandedLeavesGap`). From then on the chain is not sealed any further
  (`EndToEnd.StrandedStopsSealing`), and whenever it is due the tick ends there, so
  no chain listed after it is sealed either (`Stalls.StarvedForGood`).
- `crates/ancre-ingester/src/bus.rs:253-257` says a heartbeat that fails to store
  leaves the day unmarked and is written by a later tick. The code marks the day
  and advances the cursor before the insert, and undoes neither.
  `Heartbeats.HeartbeatsSoundIff` says exactly when the invariant survives,
  `Heartbeats.RefusedHeartbeatLeavesGap` shows the gap a later event leaves, and
  `Heartbeats.OfferedOnceADay` that the same day is not tried again.
- `crates/ancre-ingester/src/chain_writer.rs:167-169` expects two ingesters that
  write one day's heartbeat to collide on the dedupe check. The memory is per process:
  after a restart it is empty and the heartbeat is chained again
  (`Heartbeats.RestartBeatsAgain`); the same holds of any event between store and ack
  (`IngestRuns.RestartStoresTwice`).
- `crates/ancre-canon/src/lib.rs:138` names section 4.2.1 of RFC 8949 for the key
  order; length first, which is what the code does and what `Canon.Shortlex` models,
  is section 4.2.3.
- `crates/ancre-control/src/clickhouse.rs:153-158` relies on counting leaves to catch
  a repeated position. On rows that rise, counting finds every gap
  (`Positions.CountIff`); with a repeated position in the range it can miss one
  (`Positions.DuplicateHidesGap`).
- A clean report does not mean contiguous positions: a falling `seq` is not a
  finding. `VerifyTheorems.CleanIff` and `CleanContiguousIff` say exactly what it
  means, `CleanThoughFalling` gives the family of examples.
- The gap test adds one in u64 arithmetic. After position 2^64 - 1 the sum wraps to
  0, so every later event but one at 0 is reported as a gap
  (`VerifyTheorems.WrappedGap`); the model computes with the wrap, as an optimised
  build does. A build with overflow checks panics there instead.
- The leaf count of a checkpoint over all of 0 to 2^64 - 1 wraps to none, so with
  the root of no leaves it verifies against a pack that holds nothing
  (`Attest.EverythingVerifiesOnNothing`). `Attest.VerifiedCovers` is exact about
  this one range.
- The length prefix keeps a field apart from the next exactly below 2^32 - 1
  bytes (`Chain.SeparatesIffShort`); above, it saturates.
- The count column of a `telemetry.dropped` event saturates at 2^32 - 1
  (`Telemetry.CarriedExactIff`), and a window goes on covering its drops exactly if
  the next stamp is before neither of its bounds (`Drops.RecordCoversIff`). Stamps are
  read before the lock is taken, so two producers can store them out of order even on
  a clock that never goes back; that uncovers a drop only within its own window's key
  (`Telemetry.RunCovers`).
- After a lost bus send the next publish reports `Unchanged` and sends nothing;
  only the read API still hands that envelope out
  (`Publishing.LostSendIsServedNotRepeated`).
- A poll confirms the installed snapshot on the generation alone, before anything
  is verified (`Staleness.RefusableConfirms`, `Staleness.ClockMovesIff`).

## Model

| member | source | states |
|---|---|---|
| `Merkle.InputsSeparate` | crates/ancre-canon/src/hash.rs:172-220 | the strings hashed for the empty tree, a leaf and a node never coincide, start with different bytes, and each determines its parts |
| `Merkle.LargestPow2Below` | crates/ancre-canon/src/hash.rs:310-313 | the split point k of n leaves: a power of two with 0 < k < n <= 2k |
| `Merkle.SplitUnique` | crates/ancre-canon/src/hash.rs:310-313 | no other power of two splits n leaves so |
| `Merkle.LeftIsComplete` | crates/ancre-canon/src/hash.rs:192-203 | the left subtree of every split is complete: all its leaves are equally deep, as deep as any |
| `Merkle.RootIsByLevels` | crates/ancre-canon/src/hash.rs:172-203 | splitting from above is combining neighbours from below, level by level, an odd one carried up |
| `Merkle.BuildProof` | crates/ancre-canon/src/hash.rs:243-256 | pushes exactly the siblings of the leaf, leaf first, after what the vector held |
| `Merkle.TreeProof` | crates/ancre-canon/src/hash.rs:234-241 | an audit path for every index in range, none for any other |
| `Merkle.RootFromProof` | crates/ancre-canon/src/hash.rs:265-307 | the two loops compute what undoing the recursive path computes, and refuse the same inputs |
| `Merkle.RecomputeIsClimb` | crates/ancre-canon/src/hash.rs:277-306 | descending once for the sides and climbing once with the siblings is the recursion on the tree |
| `Merkle.ProofComplete` | crates/ancre-canon/src/hash.rs:233-307 | for every list and index, the path built recursively leads the loops to the root |
| `Merkle.ProofShort` | crates/ancre-canon/src/hash.rs:243-256 | a path over n leaves has at most bit-length(n - 1) steps |
| `Merkle.CeilLog2` | crates/ancre-canon/src/hash.rs:310-313 | that bound is the least d with n <= 2^d |
| `Merkle.TreeRootBinds` | crates/ancre-canon/src/hash.rs:172-203 | equal roots mean equal leaf lists, across all sizes, or the hashing done for them collides |
| `Merkle.ProofSound` | crates/ancre-canon/src/hash.rs:265-307 | a leaf and path that lead to the root are the leaf at that index and its one audit path, or a collision |
| `Canon.BeforeIsAnOrder` | crates/ancre-canon/src/lib.rs:138-146 | length-first key order is total, antisymmetric and transitive |
| `CanonTheorems.ShorterKeysFirst` | crates/ancre-canon/src/lib.rs:138-146 | in a canonical map a shorter written key comes first, and of equally long ones the one whose first differing byte is smaller |
| `CanonTheorems.LexLessIff` | crates/ancre-canon/src/lib.rs:138-146 | bytewise order: a proper beginning comes first, else the first differing byte tells |
| `CanonTheorems.StandardNumbers` | crates/ancre-canon/src/lib.rs:117-121 | numbers are written as in the examples of RFC 8949, appendix A |
| `CanonTheorems.StandardWideNumber` | crates/ancre-canon/src/lib.rs:117-121 | a number of eight bytes likewise |
| `CanonTheorems.StandardNegatives` | crates/ancre-canon/src/lib.rs:117-121 | negative numbers likewise |
| `CanonTheorems.StandardStrings` | crates/ancre-canon/src/lib.rs:117-121 | strings and simple values likewise |
| `CanonTheorems.StandardContainers` | crates/ancre-canon/src/lib.rs:117-121 | arrays and maps likewise |
| `CanonTheorems.StandardTag` | crates/ancre-canon/src/lib.rs:117-121 | a tag likewise |
| `CanonTheorems.WritePrefixFree` | crates/ancre-canon/src/lib.rs:117-121 | no written value is the start of another, so concatenation is unambiguous |
| `CanonTheorems.WriteInjective` | crates/ancre-canon/src/lib.rs:117-121 | two values written alike are alike |
| `CanonTheorems.ResultIsCanonical` | crates/ancre-canon/src/lib.rs:129-164 | whenever rewriting succeeds, map keys strictly ascend at every depth and no float is left |
| `CanonTheorems.CanonicalIffFixed` | crates/ancre-canon/src/lib.rs:129-164 | rewriting leaves a value alone exactly if it is canonical |
| `CanonTheorems.CanonicalizeIdempotent` | crates/ancre-canon/src/lib.rs:129-164 | rewriting twice is rewriting once |
| `CanonTheorems.RefusedIffError` | crates/ancre-canon/src/lib.rs:129-164 | it fails exactly when a float or two keys of one canonical form occur somewhere |
| `CanonTheorems.ReorderedSameResult` | crates/ancre-canon/src/lib.rs:133-150 | any reordering of map entries at any depth gives the same outcome |
| `CanonTheorems.SameResultReordered` | crates/ancre-canon/src/lib.rs:129-164 | values with one result are reorderings of each other |
| `CanonTheorems.EncodingUnique` | crates/ancre-canon/src/lib.rs:95-98 | encodings are equal exactly if the values are reorderings of each other |
| `CanonTheorems.AcceptsOnlyItsOwn` | crates/ancre-canon/src/lib.rs:101-109 | whatever the reader and the type, accepted bytes are the encoding of the canonical value graph the value was made from |
| `CanonTheorems.DecodeInvertsEncode` | crates/ancre-canon/src/lib.rs:95-109 | with a reader that reads back what was written, decoding into a type undoes encoding, and no other byte string is accepted as that value graph |
| `CanonTheorems.OneStringEachIff` | crates/ancre-canon/src/lib.rs:101-109 | with a reader whose lengths are machine words, a type has one byte string per value exactly if it tells apart the value graphs that are read back |
| `CanonTheorems.SkippedFieldTwoStrings` | crates/ancre-canon/src/lib.rs:101-109 | a struct that skips unknown fields decodes to one value from two byte strings |
| `Events.BodyEncodes` | crates/ancre-types/src/event.rs:175-231 | every hashed body encodes: it holds no float and no repeated key |
| `Events.HashedBytesIff` | crates/ancre-types/src/event.rs:236-297 | two events have the same hashed bytes exactly if they agree in every field but the stored hash, the time of ingestion and the pins' own system id, with the same flags in any order |
| `Events.HashedViewIff` | crates/ancre-types/src/event.rs:236-292 | the same of the view that is hashed: it leaves out three fields and the order of the flags, and nothing else |
| `Events.SortFlagsIff` | crates/ancre-types/src/event.rs:269-276 | flags are hashed in bytewise order, and sort alike exactly if each occurs as often in both |
| `Events.StructInjective` | crates/ancre-canon/src/lib.rs:95-98 | two structs of one type with one encoding have the same field values |
| `Chain.SeparatesIffShort` | crates/ancre-chain/src/lib.rs:45-49 | the length prefix separates a field from the next exactly below 2^32 - 1 bytes |
| `Chain.EventInputReads` | crates/ancre-chain/src/lib.rs:45-70 | the string hashed for an event reads back as tag, rule set, link and body, in this order |
| `Chain.EventHashBinds` | crates/ancre-chain/src/lib.rs:59-70 | equal event hashes mean one record, field by field, position and link included, or the two inputs collide |
| `Chain.SameRecordSameHash` | crates/ancre-chain/src/lib.rs:59-70 | one record has one hash, whatever its stored hash, time of ingestion, pins' system id and order of flags |
| `Chain.SealTotal` | crates/ancre-chain/src/lib.rs:74-78 | sealing never fails |
| `Chain.SealedRehashes` | crates/ancre-chain/src/lib.rs:74-78 | a sealed event rehashes to the hash it carries |
| `Verify.CheckEvent` | crates/ancre-chain/src/verify.rs:179-217 | the findings of one event: position, then link, then contents |
| `Verify.VerifyRange` | crates/ancre-chain/src/verify.rs:151-235 | the one-pass loop gives the report defined event by event |
| `VerifyTheorems.CleanIff` | crates/ancre-chain/src/verify.rs:129-131 | clean exactly if every link holds, every event is of the known rule set and rehashes, and each position is one further or falls, in u64 arithmetic |
| `VerifyTheorems.CleanContiguousIff` | crates/ancre-chain/src/verify.rs:181-190 | a clean range is contiguous exactly if its positions never fall |
| `VerifyTheorems.CleanThoughFalling` | crates/ancre-chain/src/verify.rs:181-190 | two events sealed in falling order verify cleanly exactly unless the first is at 2^64 - 1 and the second not at 0 |
| `VerifyTheorems.WrappedGap` | crates/ancre-chain/src/verify.rs:181-190 | after position 2^64 - 1 a fall to anything but 0 is reported as a gap |
| `VerifyTheorems.InconclusiveIff` | crates/ancre-chain/src/verify.rs:136-139 | inconclusive exactly if all else holds and some event is of another rule set |
| `VerifyTheorems.FindingsMember` | crates/ancre-chain/src/verify.rs:172-231 | a finding is in the report exactly if some event, anchored at the one before, gives it |
| `VerifyTheorems.ChunkedVerification` | crates/ancre-chain/src/verify.rs:172-231 | verifying a then b from a's head misses at most one gap or fork at the seam, and nothing else |
| `VerifyTheorems.HeadCommitsToHistory` | crates/ancre-chain/src/verify.rs:151-235 | one anchor and one head mean one history, or a collision, or an event that hashes to the anchor |
| `VerifyTheorems.EditIsLocal` | crates/ancre-chain/src/verify.rs:179-230 | changing any recorded field of one event gives one hash mismatch, there, or a collision |
| `VerifyTheorems.RemovalIsLocal` | crates/ancre-chain/src/verify.rs:179-230 | removing an interior block gives one gap and one broken link, or a collision |
| `Checkpoints.PayloadBindsBody` | crates/ancre-chain/src/checkpoint.rs:128-136 | every body has a payload, and equal payloads mean equal bodies or a collision |
| `Checkpoints.PayloadReads` | crates/ancre-chain/src/checkpoint.rs:128-136 | what is signed reads back as the tag and the encoded body |
| `Checkpoints.PayloadIsNoEvent` | crates/ancre-chain/src/checkpoint.rs:128-136 | no checkpoint payload is hashed from a string an event hash is taken over |
| `Checkpoints.CheckpointVerifiesIff` | crates/ancre-chain/src/checkpoint.rs:223-228 | a checkpoint verifies exactly if the key is well formed and the scheme accepts the signature over the payload of its body; the error says which is not so |
| `Checkpoints.VerifiedWasSigned` | crates/ancre-chain/src/checkpoint.rs:223-228 | under a key that accepts only payloads of some bodies, a verified body is one of them, or payloads collide |
| `Checkpoints.InclusionVerifiesIff` | crates/ancre-chain/src/checkpoint.rs:269-290 | a proof is accepted exactly if the checkpoint is signed, the position is in range, and the path leads from the event to the root |
| `Checkpoints.ProvableIff` | crates/ancre-chain/src/checkpoint.rs:235-257 | a position can be proved exactly if it is in range and the leaves are as many as signed and have the signed root |
| `Checkpoints.ProvedInclusionVerifies` | crates/ancre-chain/src/checkpoint.rs:188-290 | every position of every sealed range is provable, and the proof passes and is as short as the tree is deep |
| `Checkpoints.VerifiedInclusionIsSound` | crates/ancre-chain/src/checkpoint.rs:268-290 | an accepted proof is the one the prover would give, or a collision |
| `Attest.BySeqIsLast` | crates/ancre-verify/src/pack.rs:200-232 | at each position the last event counts, with its recomputed hash |
| `Attest.VerdictIff` | crates/ancre-verify/src/pack.rs:234-287 | each verdict, in terms of trusted keys, the signature, the leaves present and the root |
| `Attest.AttestedWasSigned` | crates/ancre-verify/src/pack.rs:247-260 | a verified checkpoint is one that was signed, or payloads collide |
| `Attest.VerifiedCovers` | crates/ancre-verify/src/pack.rs:234-287 | a verified checkpoint's root is the tree over the recomputed hashes of a proper range with an event at every position, exactly unless the range is every u64 |
| `Attest.EverythingVerifiesOnNothing` | crates/ancre-chain/src/checkpoint.rs:103-105 | the failing case: that range with the root of no leaves verifies against an empty pack |
| `Attest.AttestationBindsContents` | crates/ancre-verify/src/pack.rs:200-287 | two packs verified for one checkpoint, of any range short of every u64, hold at each position the same record, or a collision |
| `Attest.AttestedRuns` | crates/ancre-verify/src/pack.rs:295-312 | the runs cover exactly what the verified checkpoints cover, in order and never touching |
| `Attest.OneRun` | crates/ancre-verify/src/pack.rs:295-312 | separated runs that cover 1 to n are the one run 1 to n |
| `Checkpointer.PutLeavesNoHole` | crates/ancre-control/src/checkpointer.rs:214-245 | a checkpoint from a stale read still leaves no hole, whoever put what in between |
| `Checkpointer.FurthestIsMax` | crates/ancre-control/src/postgres.rs:311-324 | the last sealed row is the one that reaches furthest |
| `Checkpointer.StepKeepsSound` | crates/ancre-control/src/checkpointer.rs:205-251 | each read, seal, put, append or failure of a replica keeps every chain's checkpoints sound, whatever gaps its rows have |
| `Checkpointer.ReplicasLeaveNoHole` | crates/ancre-control/src/checkpointer.rs:205-251 | in every interleaving of replicas, ranges leave no hole from 1 and each checkpoint is signed over the tree of the rows at the positions it names, none of them missing |
| `Checkpointer.TickChain` | crates/ancre-control/src/checkpointer.rs:208-247 | one chain is sealed up to its head exactly if it is due and has no gap to seal over; where a gap or a failed call stops it, it is as it was, unless the write landed all the same |
| `Checkpointer.Tick` | crates/ancre-control/src/checkpointer.rs:205-251 | the chains before a failure are dealt with, the others untouched, and no chain that is due with a gap is got past; every chain stays sound, and abutting if it was; the report adds them up |
| `Checkpointer.AbuttingReach` | crates/ancre-control/src/checkpointer.rs:214-215 | ranges that abut reach as far as the last one and leave no hole |
| `Checkpointer.AfterTickSound` | crates/ancre-control/src/checkpointer.rs:205-251 | a tick leaves a chain's checkpoints sound, abutting if they were, and reaching the head exactly if it was due and had no gap to seal over |
| `Checkpointer.TickedSound` | crates/ancre-control/src/checkpointer.rs:205-251 | a tick, whole or cut short, leaves every chain as sound as it found it, so ticks can follow each other |
| `Checkpointer.SoleCheckpointerAbuts` | crates/ancre-control/src/checkpointer.rs:205-251 | in every run with one checkpointer, whatever is appended meanwhile and wherever ticks are cut short, the ranges of every chain abut exactly from 1 |
| `Checkpointer.TickIsSteps` | crates/ancre-control/src/checkpointer.rs:208-247 | one chain of a tick is four steps of one replica with nothing in between |
| `Checkpointer.TickedInTime` | crates/ancre-control/src/checkpointer.rs:214-227 | a chain a tick got past has a checkpoint; fewer than every-n positions are left unsealed and none waits longer than every-t since the last one; and nothing is sealed before that |
| `Checkpointer.TotalsAddUp` | crates/ancre-control/src/checkpointer.rs:205-251 | a whole tick reports the chains there are, the checkpoints added, the positions they seal and the longest run left unsealed |
| `Checkpointer.Lag` | crates/ancre-control/src/checkpointer.rs:254-266 | the metric per chain: head less the last sealed position, never below zero |
| `Checkpointer.LagIsUnsealed` | crates/ancre-control/src/checkpointer.rs:254-266 | the lag is exactly the positions no checkpoint covers |
| `Positions.CountIff` | crates/ancre-control/src/checkpointer.rs:228-239 | a range read from rising rows has as many rows as positions exactly if no position is missing, each then in its place |
| `Positions.DuplicateHidesGap` | crates/ancre-control/src/clickhouse.rs:153-158 | a repeated position makes up for a missing one in the count |
| `Stalls.StuckIff` | crates/ancre-control/src/checkpointer.rs:228-239 | a due chain ends the tick exactly if a position above the last one sealed has no row |
| `Stalls.GapStopsSealing` | crates/ancre-control/src/checkpointer.rs:205-251 | a position below the head without a row: in no continuation of the run, by any replica, is the chain sealed up to it |
| `Stalls.StaysStuck` | crates/ancre-control/src/checkpointer.rs:214-239 | a chain stuck once is stuck at every later tick, whatever rows are added |
| `Stalls.StarvedForGood` | crates/ancre-control/src/checkpointer.rs:205-251 | once a chain with a gap is due, no number of later ticks seals it or any chain listed after it |
| `ChainWriters.ChainWriter.ResumeFrom` | crates/ancre-ingester/src/chain_writer.rs:54-64 | resumes after the last row, with an empty memory |
| `ChainWriters.ChainWriter.Append` | crates/ancre-ingester/src/chain_writer.rs:83-88 | a remembered id is refused and changes nothing; any other is chained |
| `ChainWriters.ChainWriter.ChainEvent` | crates/ancre-ingester/src/chain_writer.rs:90-115 | the cursor moves only after sealing succeeded |
| `ChainWriters.ChainWriter.Remember` | crates/ancre-ingester/src/chain_writer.rs:139-147 | the trimming loop evicts oldest first down to the window |
| `ChainWriters.ChainWriter.RewindTo` | crates/ancre-ingester/src/chain_writer.rs:122-126 | position and head go back, and with them the memory |
| `ChainWriters.ChainWriter.ForgetAfter` | crates/ancre-ingester/src/chain_writer.rs:133-137 | what was remembered at or after a position is forgotten, order kept |
| `ChainWriters.ChainWriter.Heartbeat` | crates/ancre-ingester/src/chain_writer.rs:157-192 | offers the day's event unless the day is marked, and marks it either way |
| `Cursors.ResumeStands` | crates/ancre-ingester/src/chain_writer.rs:44-64 | a resumed cursor stands at the head of the stored rows |
| `Cursors.RememberExact` | crates/ancre-ingester/src/chain_writer.rs:139-147 | the index stays exact and at most the oldest id goes |
| `Cursors.AppendStands` | crates/ancre-ingester/src/chain_writer.rs:83-115 | an event not remembered is always chained: the cursor stands at the head of the rows with it, and they verify |
| `Cursors.RewindStands` | crates/ancre-ingester/src/chain_writer.rs:122-137 | going back over unstored events leaves the cursor at the stored head, with the surviving prefix of its memory |
| `Batches.TakeOneSound` | crates/ancre-ingester/src/pipeline.rs:71-114 | one message keeps the batch sound, cannot fail, and leaves its event among its chain's rows; a silent store puts every writer back |
| `BatchTheorems.EachCounted` | crates/ancre-ingester/src/pipeline.rs:71-114 | a batch that was not stopped has chained each message or counted it as a duplicate |
| `Batches.RewoundSound` | crates/ancre-ingester/src/pipeline.rs:134-140 | undoing a batch puts every writer back at its stored head |
| `BatchTheorems.IngestSound` | crates/ancre-ingester/src/pipeline.rs:64-127 | a call keeps every chain sound; handed back means the store is as it was, otherwise every message's event is stored, duplicates included |
| `BatchTheorems.HandedBackRestores` | crates/ancre-ingester/src/pipeline.rs:120-140 | after a deferred batch each writer stands where it stood and remembers a suffix of what it did, all of it unless the events undone had pushed some out of the window, so redelivery is accepted |
| `Pipeline.EventStore.Insert` | crates/ancre-ingester/src/sink.rs:12-21 | all of the batch is stored, or none |
| `Pipeline.EventStore.Head` | crates/ancre-ingester/src/sink.rs:23-32 | position and hash of one row, or no answer |
| `Pipeline.Ingester.EnsureWriter` | crates/ancre-ingester/src/pipeline.rs:77-99 | a missing writer is resumed from the store, or nothing changes |
| `Pipeline.Ingester.Take` | crates/ancre-ingester/src/pipeline.rs:71-114 | the loop body on mutable writers is one step of the batch |
| `Pipeline.Ingester.Ingest` | crates/ancre-ingester/src/pipeline.rs:64-127 | the whole call on mutable writers and store is the settled batch, and its report counts it |
| `Pipeline.Ingester.Rewind` | crates/ancre-ingester/src/pipeline.rs:134-140 | in any order, exactly the touched writers go back |
| `Pipeline.Ingester.InsertWithRetry` | crates/ancre-ingester/src/pipeline.rs:142-159 | fails exactly after every attempt failed, having stored nothing |
| `Pipeline.Ingester.IngestDropped` | crates/ancre-ingester/src/pipeline.rs:64-127 | the call dropped at any await: what was chained stays chained, the insert landed or not, nothing is rewound |
| `Pipeline.Ingester.Heartbeats` | crates/ancre-ingester/src/pipeline.rs:162-174 | each live writer is offered its heartbeat once; one insert; nothing is undone |
| `Heartbeats.HeartbeatsSoundIff` | crates/ancre-ingester/src/pipeline.rs:162-174 | stored heartbeats keep the invariant; refused ones keep it exactly if there were none |
| `Heartbeats.WrittenNothingIff` | crates/ancre-ingester/src/pipeline.rs:162-174 | told before the pass: nothing is written exactly if no writer offered has a heartbeat due |
| `Heartbeats.RefusedHeartbeatLeavesGap` | crates/ancre-ingester/src/pipeline.rs:162-174 | the next stored event of the chain shows as a gap of the heartbeats refused |
| `Heartbeats.OfferedOnceADay` | crates/ancre-ingester/src/chain_writer.rs:157-162 | a day once offered is refused for the rest of the day, stored or not |
| `Heartbeats.RestartBeatsAgain` | crates/ancre-ingester/src/chain_writer.rs:54-64 | after a restart the day's heartbeat is chained again under the same id |
| `Heartbeats.DayIs` | crates/ancre-ingester/src/chain_writer.rs:158 | days are 24 hours of microseconds, rounded down before 1970 too |
| `Heartbeats.DaysHaveOwnIds` | crates/ancre-ingester/src/chain_writer.rs:196-207 | heartbeats of different days have different ids, or the strings hashed for them have digests alike in 16 bytes |
| `Heartbeats.NextDayBeats` | crates/ancre-ingester/src/chain_writer.rs:157-192 | a quiet chain goes on beating: a writer that remembers only other days' heartbeats chains today's, or such a collision |
| `Cutoffs.CutSoundIff` | crates/ancre-ingester/src/bus.rs:246-261 | a dropped pull keeps the invariant exactly if nothing was chained that is not stored; stored rows are good either way |
| `Cutoffs.StrandedLeavesGap` | crates/ancre-ingester/src/bus.rs:246-261 | the next event of the chain that is stored shows as a gap of the stranded ones |
| `Cutoffs.ChainedNothingIff` | crates/ancre-ingester/src/pipeline.rs:71-114 | told before the batch: it chains nothing exactly if live writers remember every event of it |
| `Cutoffs.NotDeferredIff` | crates/ancre-ingester/src/pipeline.rs:71-114 | told before the batch: it is not deferred exactly if the store answers for each chain it has to be asked about |
| `IngestRuns.NextSoundIff` | crates/ancre-ingester/src/bus.rs:236-292 | any step from a sound state keeps the invariant exactly if it leaves nothing chained that is not stored; a restart finds nothing wrong either way |
| `IngestRuns.LosesIff` | crates/ancre-ingester/src/bus.rs:236-292 | told before the step, from live writers and answers of the store, whether it leaves something chained and unstored |
| `IngestRuns.AlwaysSoundIff` | crates/ancre-ingester/src/bus.rs:236-292 | the invariant holds at every moment of a run if and only if no step leaves something chained that is not stored |
| `IngestRuns.RunSound` | crates/ancre-ingester/src/bus.rs:163-292 | in every run of pulls, redeliveries, failures, dropped pulls, heartbeats stored or refused and restarts in which a step that leaves something chained and unstored is followed by a restart: each chain is complete and verifies and every acked event is in its chain; live writers stand at their stored heads exactly if the last step was not such a step |
| `IngestRuns.RunVerifies` | crates/ancre-ingester/src/pipeline.rs:64-140 | in every such run: positions 1..n, a clean report from genesis, and, unless something was just lost, writers at its head |
| `IngestRuns.RunOnlyAdds` | crates/ancre-ingester/src/sink.rs:12-21 | in every run whatever it loses, stored rows stay where they are |
| `IngestRuns.AnsweredPullAcksAll` | crates/ancre-ingester/src/bus.rs:206-224 | once the store answers, nothing is handed back: the whole pull is stored and acked |
| `IngestRuns.TurnedAwayIff` | crates/ancre-ingester/src/chain_writer.rs:83-88 | in every such run with nothing just lost, a live writer refuses an event exactly if its id is among the rows it remembers |
| `DedupeReach.RunReaches` | crates/ancre-ingester/src/chain_writer.rs:83-145 | in every such run with pulls of at most n messages, a live writer remembers every row since it was resumed, or at least the window less n |
| `DedupeReach.RecentTurnedAway` | crates/ancre-ingester/src/chain_writer.rs:83-145 | so it refuses every event found that far back, and two rows with one id since it was resumed are more than the window less n apart |
| `IngestRuns.RestartStoresTwice` | crates/ancre-ingester/src/chain_writer.rs:54-64 | a restart between store and ack stores the event twice, and the chain still verifies |
| `IngestRuns.StrandedIsAckedUnstored` | crates/ancre-ingester/src/bus.rs:206-224 | after a pull dropped between chaining and storing, a remembered event is acked on redelivery without a row |
| `IngestRuns.CutThenAckedUnstored` | crates/ancre-ingester/src/bus.rs:246-261 | for any event: dropped once, delivered again, acked, never stored |
| `Bus.Consumer.Sift` | crates/ancre-ingester/src/bus.rs:175-197 | decodable messages in order, the others acked and counted |
| `Bus.Consumer.PullOnce` | crates/ancre-ingester/src/bus.rs:163-227 | one pull is one step of the ingest machine; all of the batch is acked or all of it handed back; a failed fetch changes nothing |
| `Bus.Consumer.PullDropped` | crates/ancre-ingester/src/bus.rs:246-261 | a pull dropped while it ingests or between acks is one cut step of the ingest machine |
| `Bus.PullIsAllOrNothing` | crates/ancre-ingester/src/bus.rs:206-224 | handed back leaves no trace in store or acks; otherwise every message is stored; failure is only an ack that did not get through |
| `EndToEnd.SealedIsAttested` | crates/ancre-verify/src/pack.rs:234-287 | every checkpoint of a chain is verified against the chain's rows |
| `EndToEnd.SealedIsProvable` | crates/ancre-chain/src/checkpoint.rs:235-290 | every row up to the last sealed position has a proof that passes |
| `EndToEnd.AttestedIsOneRun` | crates/ancre-verify/src/pack.rs:295-312 | the attested runs of a chain are one run from 1 to the last sealed position |
| `EndToEnd.EvidenceVerifies` | crates/ancre-verify/src/pack.rs:200-232 | whatever ingester and replicas went through, if a step that left something chained and unstored was followed by a restart, the chain verifies, every checkpoint is attested, and nothing is left out below the last one |
| `EndToEnd.AttestedIsTheChain` | crates/ancre-verify/src/pack.rs:200-287 | whoever made the pack: under keys that accept only what the checkpointers signed, each position of a verified checkpoint holds the very record stored there in its chain, or a collision |
| `EndToEnd.ReportedRootIsSealed` | crates/ancre-chain/src/verify.rs:150-230 | the report on a whole chain names the root that a checkpoint over all of it signs |
| `EndToEnd.SkippedIsNeverSealed` | crates/ancre-control/src/checkpointer.rs:205-251 | an event stored above a position never filled stops the sealing of its chain below that position for good |
| `EndToEnd.StrandedStopsSealing` | crates/ancre-ingester/src/bus.rs:246-261 | so does a pull dropped between chaining and storing, once an event of that chain is stored after it |
| `Sse.FindSeparator` | crates/ancre-provider/src/sse.rs:148-158 | the first place where the bytes LF LF or CR LF CR LF stand, with their length, and none exactly if they stand nowhere |
| `Sse.FirstStable` | crates/ancre-provider/src/sse.rs:148-158 | a complete separator stays the first whatever bytes follow |
| `Sse.SplitResumes` | crates/ancre-provider/src/sse.rs:72-115 | splitting may stop anywhere and go on from the tail |
| `Sse.Parse` | crates/ancre-provider/src/sse.rs:162-192 | first `data` wins, last `event` wins and must be text, no `data` means no frame |
| `Sse.LinesIff` | crates/ancre-provider/src/sse.rs:166 | the lines of a body are the one list without line feeds that joins to it |
| `Sse.FieldIff` | crates/ancre-provider/src/sse.rs:166-179 | a line's field: what stands before its first colon and what stands after it, less one space, and less one carriage return at the end |
| `Sse.ParsedIff` | crates/ancre-provider/src/sse.rs:162-192 | a body is a frame exactly if a line is named data; the first such gives the data, the last named event the event if it is text |
| `Sse.FrameScanner.Feed` | crates/ancre-provider/src/sse.rs:72-115 | both paths surface the frames of carry and chunk as one buffer; the carry never holds a separator nor exceeds the ceiling |
| `Sse.FrameScanner.PushCarry` | crates/ancre-provider/src/sse.rs:132-139 | past the ceiling the carry is dropped with an error |
| `Sse.FrameScanner.Finish` | crates/ancre-provider/src/sse.rs:122-130 | what is left is one frame of its own |
| `Sse.ChunkingDoesNotMatter` | crates/ancre-provider/src/sse.rs:72-130 | for every cut none of whose feeds is refused, the frames are those of the uncut stream |
| `Sse.NoneRefusedIff` | crates/ancre-provider/src/sse.rs:107-115 | a cut goes through exactly if no boundary leaves more than the ceiling unterminated |
| `Sse.SmallFramesNeverRefused` | crates/ancre-provider/src/sse.rs:107-115 | frames three bytes below the ceiling go through however the stream is cut |
| `Sse.StreamRoundTrip` | crates/ancre-provider/src/sse.rs:148-192 | frames written as providers write them, with either line ending and with or without the space, come back as they were |
| `Contents.ContentHashTotal` | crates/ancre-types/src/config.rs:199-205 | every content has a hash |
| `Contents.ContentHashBinds` | crates/ancre-types/src/config.rs:199-251 | equal content hashes mean equal content, down to every route and matcher, or a collision |
| `Snapshots.Build` | crates/ancre-types/src/config.rs:92-165 | the two loops index systems and keys and refuse at the first that does not fit |
| `Snapshots.BuiltIff` | crates/ancre-types/src/config.rs:92-165 | builds exactly if every system has its default route, ids and key hashes are distinct and keys bind known systems; generation plays no part; the maps hold exactly what is listed |
| `Snapshots.OrderDoesNotMatter` | crates/ancre-types/src/config.rs:216-219 | rows in any order are accepted alike, and canonical order makes one content of them |
| `Snapshots.OrderedIs` | crates/ancre-types/src/config.rs:216-219 | canonical order is the same rows by id and key hash, ascending, no row touched |
| `Snapshots.InstalledIff` | crates/ancre-types/src/config.rs:299-323 | an envelope installs exactly if it describes its own fit contents, and yields its generation and hash |
| `Snapshots.InstalledContentBinds` | crates/ancre-types/src/config.rs:299-323 | installed under one content hash means one content, or a collision |
| `Publishing.StepKeepsSound` | crates/ancre-control/src/snapshot.rs:78-147 | no step of any replica unsettles what a generation stands for; log and sent envelopes only grow |
| `Publishing.GenerationNamesContent` | crates/ancre-control/src/snapshot.rs:78-147 | in every interleaving, envelopes of one generation carry one hash, all install under it, and hold one content or a collision |
| `Publishing.ReadingsAgree` | crates/ancre-control/src/snapshot.rs:78-98 | two readings of the same rows come to the same content and hash |
| `Publishing.LostSendIsServedNotRepeated` | crates/ancre-control/src/snapshot.rs:109-147 | a lost envelope is not sent again by publish, and is served to a poll as it was |
| `Builders.Registry.AllocateGeneration` | crates/ancre-control/src/postgres.rs:283-307 | the next number, recorded with its hash; on failure nothing, or the same though reported as failed |
| `Builders.SnapshotBuilder.BuildSpec` | crates/ancre-control/src/snapshot.rs:78-92 | the rows in canonical order, refused as invalid only if unfit |
| `Builders.SnapshotBuilder.Publish` | crates/ancre-control/src/snapshot.rs:109-124 | sends only changed content, under a fresh generation, in an envelope that installs; a failure sends nothing else and at most burns the number; either way it is a beginning of the machine's publish |
| `Builders.SnapshotBuilder.Current` | crates/ancre-control/src/snapshot.rs:127-147 | serves the published content under its own generation, or nothing, as the machine serves a poll |
| `Builders.ReadStage` | crates/ancre-control/src/snapshot.rs:78-98 | after the two reads of fit rows a replica of the machine holds them in canonical order under their hash |
| `Builders.StagesAre` | crates/ancre-control/src/snapshot.rs:109-124 | what the machine's steps of one publish come to: nothing if the content is published, else its hash logged and its envelope sent or lost |
| `Drops.ListingCounts` | crates/ancre-gateway/src/telemetry.rs:200-216 | taking the table loses no count of any key |
| `Drops.RestoreCounts` | crates/ancre-gateway/src/telemetry.rs:224-244 | putting windows back adds exactly their counts |
| `Drops.PutBackAsTheyWere` | crates/ancre-gateway/src/telemetry.rs:200-244 | take then restore is the table as it was |
| `Drops.RecordCoversIff` | crates/ancre-gateway/src/telemetry.rs:178-188 | a record keeps its window covering every drop exactly if its stamp is before neither bound of the window, whatever the window |
| `Drops.RecordKeepsTable` | crates/ancre-gateway/src/telemetry.rs:167-188 | recording never grows the table past one overflow entry |
| `Drops.DropCounter.Record` | crates/ancre-gateway/src/telemetry.rs:154-189 | one more in total and one more in the right window |
| `Drops.DropCounter.Take` | crates/ancre-gateway/src/telemetry.rs:200-216 | lists every window once and empties the table |
| `Drops.DropCounter.Restore` | crates/ancre-gateway/src/telemetry.rs:224-244 | merges the windows back, counts added and bounds widened |
| `Telemetry.RunConserves` | crates/ancre-gateway/src/telemetry.rs:62-466 | in every interleaving each event is published, queued, batched, dropped or gone down with the receiver; the total counts the drops; key by key the charges are open, in flight, reported or gone down with the receiver, each charged to its own chain, or to unknown/unknown exactly if the table was full of others |
| `Telemetry.QueueBounded` | crates/ancre-gateway/src/telemetry.rs:42-74 | in every run the queue holds no more than its capacity |
| `Telemetry.LostIff` | crates/ancre-gateway/src/telemetry.rs:62-74 | an event is lost on emission exactly if the queue is full or its receiver gone |
| `Telemetry.CarriedExactIff` | crates/ancre-gateway/src/telemetry.rs:276-310 | published drop events add up to the drops exactly if each window fits 32 bits |
| `Telemetry.RunCovers` | crates/ancre-gateway/src/telemetry.rs:154-244 | as long as the stamps of a key do not go back in the order of charging, every drop of that key lies within a window of it, whatever happens to other keys |
| `Batcher.TelemetryFork.Emit` | crates/ancre-gateway/src/telemetry.rs:62-74 | queued or counted, never both, never neither, by steps of the fork |
| `Batcher.Batcher.Fill` | crates/ancre-gateway/src/telemetry.rs:377-392 | drains in order up to a full batch and loses nothing, one step of the fork for each event |
| `Batcher.Batcher.Flush` | crates/ancre-gateway/src/telemetry.rs:404-431 | the batch is published or every event of it counted; then the holes are reported or left as they are; by steps of the fork |
| `Batcher.Batcher.Recover` | crates/ancre-gateway/src/telemetry.rs:443-466 | one event per window is published and the table emptied, or everything is as it was |
| `Batcher.EmitIsSteps` | crates/ancre-gateway/src/telemetry.rs:62-74 | what an emit comes to in the fork: one step, or two if the event is dropped |
| `Batcher.RecoverIsSteps` | crates/ancre-gateway/src/telemetry.rs:443-466 | what the two steps of a recovery come to |
| `Batcher.FlushIsSteps` | crates/ancre-gateway/src/telemetry.rs:404-431 | what the steps of a flush come to, event by event, with nothing in between |
| `Batcher.DropEventSays` | crates/ancre-gateway/src/telemetry.rs:276-310 | a drop event names the chain, the count up to 32 bits, the start, and the length to the millisecond |
| `Batcher.ReportedAddsUp` | crates/ancre-gateway/src/telemetry.rs:276-466 | in every run the published drop events of a key add up to the drops charged to it, less what is open or gone, exactly if each window fits 32 bits, and never claim more |
| `Batcher.ReportedCovers` | crates/ancre-gateway/src/telemetry.rs:154-310 | with steady stamps and nothing open, each drop falls in the span of a published drop event of its key |
| `Resolver.FirstMatch` | crates/ancre-resolver/src/lib.rs:104-110 | the first route that matches, none before it |
| `Resolver.MatcherLaws` | crates/ancre-types/src/config.rs:396-422 | what each kind of matcher looks at, and that a list of matchers is all of them |
| `Resolver.ChosenRouteServes` | crates/ancre-resolver/src/lib.rs:104-110 | exactly one route serves a request, the first that matches or else the default, and it is the one chosen |
| `Resolver.InstalledIsServable` | crates/ancre-types/src/config.rs:92-165 | what installs has its default routes in bounds and its keys bound to systems that are there |
| `Resolver.ServedIff` | crates/ancre-resolver/src/lib.rs:82-102 | exactly which requests are served; a key bound to a missing system never arises |
| `Resolver.ConfigFeed.Apply` | crates/ancre-gateway/src/config_feed.rs:100-112 | verify and install, or change nothing |
| `Resolver.ConfigFeed.PollOnce` | crates/ancre-gateway/src/config_feed.rs:133-140 | confirms the installed generation, installs any other, and does nothing when the fetch fails |
| `Resolver.PinResolver.ConfirmFresh` | crates/ancre-resolver/src/lib.rs:193-206 | restarts the clock of a warm node and leaves a cold one cold |
| `Staleness.RunSound` | crates/ancre-resolver/src/lib.rs:82-206 | over every timed run: nothing served cold; failing closed, High-risk only within the budget of the last install or confirmation; later answers say so; pins are of the last snapshot installed, the system the key is bound to and the first route that matches or the default, with the caller's versions if given |
| `Staleness.ClockMovesIff` | crates/ancre-gateway/src/config_feed.rs:133-140 | exactly which answers move the clock; failed and refused ones leave snapshot and clock alone |
| `Staleness.RefusableConfirms` | crates/ancre-gateway/src/config_feed.rs:133-140 | an envelope that would be refused still confirms if it names the installed generation |
| `Staleness.PinsIdentifyContent` | crates/ancre-resolver/src/lib.rs:82-149 | across a fleet fed by the control plane, pins of one generation carry one content hash |

## Left out

- HTTP, the NATS, ClickHouse and Postgres clients, auth, the UI, build scripts, benches, hex, JSON and the row mapping: plumbing around the parts modelled. A message arrives decoded or undecodable.
- Hash, signature and CBOR-reader internals: parameters, as said above. The hash-sha256 variant differs only in the rule set's name.
- Floats in CBOR are held as 64-bit patterns, since a float is refused whatever its width; half- and single-width floats, indefinite lengths and simple values other than true, false and null are the reader's business.
- Which error canonicalisation reports when a value has several defects: only whether it fails is invariant under reordering.
- Event types, outcomes, risk flags and the wire's risk classes are held in their frozen string forms; the tables between enums and strings are not part of this model.
- Checkpointer.Step: the rows of a chain rise in position, as one ingester stores them, and stay below the last position a u64 can hold; rows with a repeated position are left to `Positions.DuplicateHidesGap`.
- IngestRuns.Enabled: steps that would bring a chain to the last position a u64 can hold are outside the runs, because the source neither checks nor handles that overflow.
- Pipeline.EventStore.Insert: an error means nothing was stored, as the store's contract says; an insert that succeeds and still reports failure is not modelled, nor one that lands only after its dropped pull was followed by something else.
- One ingester per chain is taken from the deployment rule in `crates/ancre-ingester/src/main.rs`; two processes chaining one chain are not modelled.
- Retry backoff delays and wait times. The endless loops around `pull_once`, `Batcher::run`, `tick` and `poll_once` are not methods here: the machines choose any order of their calls, and of pulls dropped midway. A shutdown is a dropped pull followed by a restart.
- IngestRuns.Cut: a pull may be dropped after any message, where the source only waits before the first message of a chain it has no writer for, in the insert, and between acks; the model allows more.
- Staleness.Step: confirming is one step, because the source's load-then-store can be overtaken by an install and then no claim about the newer snapshot holds; the model does not describe that race.
- No claim is made that generations rise at a gateway: neither a message nor a poll refuses an older one.
- The generation diff, the events it emits per affected chain, `StreamPins`, the prompt cache, key rotation, retention and provider JSON translation.
- Drops.DropCounter.Restore: no bound on the table, because restoring enforces none; the `to - from` subtraction of a window is not bounded to 64 bits.
- Batcher.EventSink.Publish: a publish that reports failure published nothing; a batch that arrives all the same is counted as lost.
- Telemetry.Crash covers the receiver going away; what a process crash does to the in-memory counter is not modelled.
- Sse.Parse: lone carriage returns, a byte-order mark, `id`, `retry` and multi-line `data` are not handled by the source, so section 9.2.5 of the WHATWG HTML Standard is not claimed beyond the separators and fields above.
- Canon.Sort, Snapshots.Ordered, Attest.SortRanges: the library's in-place sorts of local lists are modelled on values, as stable insertion.
- Merkle.BuildProof: the vector the source pushes into is passed in and handed back as a value.
- The evidence report's fixed counters and the command line of the verifier.
