/** Signed checkpoints and inclusion proofs. */
module Checkpoints {
  import opened Wrappers
  import opened Hashing
  import opened Merkle
  import opened Canon
  import opened CanonTheorems
  import opened Events
  import opened Chain

  /** A signature scheme: its internals are not part of this model. */
  datatype Scheme = Scheme(
    publicKey: Bytes -> Bytes,
    wellFormedKey: Bytes -> bool,
    sign: (Bytes, Bytes) -> Bytes,
    verify: (Bytes, Bytes, Bytes) -> bool)
  {
    /** What an honest signer signs, its own public key accepts. */
    ghost predicate Correct() {
      forall secret, payload ::
        wellFormedKey(publicKey(secret)) && verify(publicKey(secret), payload, sign(secret, payload))
    }
  }

  datatype CheckpointBody = CheckpointBody(
    tenantId: Str, systemId: Str, seqFrom: u64, seqTo: u64, rootHash: Hash32, builtAt: i64, canonVersion: Str)
  {
    /** Leaves the root covers.  An inverted range saturates to one; the range of
        every position there is wraps to none. */
    function TreeSize(): u64 {
      Bump(if seqTo >= seqFrom then seqTo - seqFrom else 0)
    }

    predicate Everything() {
      seqFrom == 0 && seqTo == U64_MAX
    }

    function IndexOf(seqNo: nat): Option<nat> {
      if seqFrom <= seqNo <= seqTo then Some(seqNo - seqFrom) else None
    }
  }

  datatype Checkpoint = Checkpoint(body: CheckpointBody, signature: Bytes, keyId: Str)

  datatype InclusionProof = InclusionProof(seqNo: nat, eventHash: Hash32, path: seq<Hash32>)

  datatype ChainError =
    | Unencodable(reason: CanonError)
    | BadSignature
    | BadKey
    | BadInclusionProof
    | SeqOutOfRange(seqNo: nat, from: nat, to: nat)
    | LeavesDoNotMatchCheckpoint
    | EmptyRange

  // ----- The signed payload -----

  const CHECKPOINT_TAG: Bytes := Ascii("ancre-checkpoint/1")

  function BodyFieldNames(): seq<string> {
    ["tenant_id", "system_id", "seq_from", "seq_to", "root_hash", "built_at", "canon_version"]
  }

  lemma BodyFieldNamesSound()
    ensures forall i :: 0 <= i < 7 ==> IsAscii(BodyFieldNames()[i]) && |BodyFieldNames()[i]| < 0x1_0000
    ensures forall i, j :: 0 <= i < j < 7 ==> BodyFieldNames()[i] != BodyFieldNames()[j]
  {
  }

  function BodyValues(b: CheckpointBody): (r: seq<Value>)
    ensures |r| == 7
  {
    [Text(b.tenantId), Text(b.systemId), Unsigned(b.seqFrom), Unsigned(b.seqTo), ByteString(b.rootHash),
     Int(b.builtAt), Text(b.canonVersion)]
  }

  function BodyStruct(b: CheckpointBody): Value {
    BodyFieldNamesSound();
    Struct(Names(BodyFieldNames()), BodyValues(b))
  }

  function PayloadInput(encoded: Bytes): Bytes {
    Absorbed(CHECKPOINT_TAG) + Absorbed(encoded)
  }

  function SigningPayload(H: HashFn, b: CheckpointBody): Result<Bytes, ChainError> {
    match Encode(BodyStruct(b))
    case Err(x) => Err(Unencodable(x))
    case Ok(encoded) => Ok(H(PayloadInput(encoded)))
  }

  ghost function PayloadInputs(b: CheckpointBody): set<Bytes> {
    match Encode(BodyStruct(b))
    case Err(_) => {}
    case Ok(encoded) => {PayloadInput(encoded)}
  }

  // ----- Sealing and proving -----

  function Sign(H: HashFn, scheme: Scheme, secret: Bytes, keyId: Str, b: CheckpointBody): Result<Checkpoint, ChainError> {
    match SigningPayload(H, b)
    case Err(x) => Err(x)
    case Ok(payload) => Ok(Checkpoint(b, scheme.sign(secret, payload), keyId))
  }

  /** Seal `leaves`, which sit at `seqFrom` and on.  Positions are u64. */
  function SealRange(H: HashFn, scheme: Scheme, secret: Bytes, keyId: Str, chain: ChainId, seqFrom: u64, leaves: seq<Hash32>, now: i64)
    : Result<Checkpoint, ChainError>
    requires seqFrom + |leaves| <= 0x1_0000_0000_0000_0000
  {
    if leaves == [] then Err(EmptyRange)
    else
      Sign(H, scheme, secret, keyId,
           CheckpointBody(chain.tenantId, chain.systemId, seqFrom, seqFrom + |leaves| - 1, TreeRoot(H, leaves), now, CANON_VERSION))
  }

  function VerifyCheckpoint(H: HashFn, scheme: Scheme, cp: Checkpoint, key: Bytes): Result<(), ChainError> {
    if !scheme.wellFormedKey(key) then Err(BadKey)
    else
      match SigningPayload(H, cp.body)
      case Err(x) => Err(x)
      case Ok(payload) => if scheme.verify(key, payload, cp.signature) then Ok(()) else Err(BadSignature)
  }

  function ProveInclusion(H: HashFn, cp: Checkpoint, leaves: seq<Hash32>, seqNo: nat): Result<InclusionProof, ChainError> {
    match cp.body.IndexOf(seqNo)
    case None => Err(SeqOutOfRange(seqNo, cp.body.seqFrom, cp.body.seqTo))
    case Some(index) =>
      if |leaves| != cp.body.TreeSize() || TreeRoot(H, leaves) != cp.body.rootHash then Err(LeavesDoNotMatchCheckpoint)
      else if index >= |leaves| then Err(LeavesDoNotMatchCheckpoint)
      else Ok(InclusionProof(seqNo, leaves[index], AuditPath(H, leaves, index)))
  }

  function VerifyInclusion(H: HashFn, scheme: Scheme, cp: Checkpoint, proof: InclusionProof, key: Bytes): Result<(), ChainError> {
    match VerifyCheckpoint(H, scheme, cp, key)
    case Err(x) => Err(x)
    case Ok(_) =>
      match cp.body.IndexOf(proof.seqNo)
      case None => Err(SeqOutOfRange(proof.seqNo, cp.body.seqFrom, cp.body.seqTo))
      case Some(index) =>
        if index >= cp.body.TreeSize() then Err(BadInclusionProof)
        else
          match Recompute(H, proof.eventHash, index, cp.body.TreeSize(), proof.path)
          case None => Err(BadInclusionProof)
          case Some(computed) => if computed == cp.body.rootHash then Ok(()) else Err(BadInclusionProof)
  }

  // ----- What they promise -----

  lemma BodyEncodesOk(b: CheckpointBody)
    ensures Encode(BodyStruct(b)).Ok?
  {
    BodyValuesFlat(b);
    BodyFieldNamesSound();
    NamesKeepDistinct(BodyFieldNames());
    StructEncodes(Names(BodyFieldNames()), BodyValues(b));
  }

  lemma BodyValuesFlat(b: CheckpointBody)
    ensures forall v | v in BodyValues(b) :: IsCanonical(v) && WellSized(v)
  {
  }

  lemma BodyValuesInjective(a: CheckpointBody, b: CheckpointBody)
    requires BodyValues(a) == BodyValues(b)
    ensures a == b
  {
    var s, t := BodyValues(a), BodyValues(b);
    assert forall i :: 0 <= i < 7 ==> s[i] == t[i];
    assert s[5] == Int(a.builtAt) && t[5] == Int(b.builtAt);
  }

  /** A signed payload stands for one checkpoint body: editing any field of the
      body changes what the signature was made over, or exhibits a collision. */
  lemma PayloadBindsBody(H: HashFn, a: CheckpointBody, b: CheckpointBody)
    ensures SigningPayload(H, a).Ok?
    ensures SigningPayload(H, a) == SigningPayload(H, b) ==>
              a == b || CollisionIn(H, PayloadInputs(a) + PayloadInputs(b))
  {
    BodyEncodesOk(a);
    BodyEncodesOk(b);
    var x, y := Encode(BodyStruct(a)).value, Encode(BodyStruct(b)).value;
    assert {PayloadInput(x), PayloadInput(y)} <= PayloadInputs(a) + PayloadInputs(b);
    if PayloadInput(x) == PayloadInput(y) {
      ShortSeparates(CHECKPOINT_TAG, CHECKPOINT_TAG, Absorbed(x), Absorbed(y));
      assert Absorbed(x)[4..] == x && Absorbed(y)[4..] == y;
      BodyFieldNamesSound();
      NamesKeepDistinct(BodyFieldNames());
      BodyValuesFlat(a);
      BodyValuesFlat(b);
      StructInjective(Names(BodyFieldNames()), BodyValues(a), BodyValues(b));
      BodyValuesInjective(a, b);
    }
  }

  /** Every position of a sealed range can be proved, and the proof passes the
      verifier under the signer's key; it is as short as the tree is deep. */
  lemma ProvedInclusionVerifies(
    H: HashFn, scheme: Scheme, secret: Bytes, keyId: Str, chain: ChainId, seqFrom: u64, leaves: seq<Hash32>, now: i64, seqNo: nat)
    requires scheme.Correct()
    requires seqFrom + |leaves| <= 0x1_0000_0000_0000_0000 && |leaves| <= U64_MAX && seqFrom <= seqNo < seqFrom + |leaves|
    ensures SealRange(H, scheme, secret, keyId, chain, seqFrom, leaves, now).Ok?
    ensures
      var cp := SealRange(H, scheme, secret, keyId, chain, seqFrom, leaves, now).value;
      && ProveInclusion(H, cp, leaves, seqNo).Ok?
      && var proof := ProveInclusion(H, cp, leaves, seqNo).value;
      && proof.eventHash == leaves[seqNo - seqFrom]
      && VerifyInclusion(H, scheme, cp, proof, scheme.publicKey(secret)) == Ok(())
      && |leaves| <= Pow2(BitLength(|leaves| - 1))
      && |proof.path| <= BitLength(|leaves| - 1)
  {
    hide SigningPayload, TreeRoot, AuditPath, Recompute, BitLength, Pow2;
    var b := CheckpointBody(chain.tenantId, chain.systemId, seqFrom, seqFrom + |leaves| - 1, TreeRoot(H, leaves), now, CANON_VERSION);
    PayloadBindsBody(H, b, b);
    ProofComplete(H, leaves, seqNo - seqFrom);
    ProofShort(H, leaves, seqNo - seqFrom);
    CeilLog2(|leaves|, BitLength(|leaves| - 1));
  }

  /** An accepted proof against a checkpoint over `leaves` shows the leaf at that
      position, along the one path there is, or a collision. */
  lemma VerifiedInclusionIsSound(H: HashFn, scheme: Scheme, cp: Checkpoint, proof: InclusionProof, key: Bytes, leaves: seq<Hash32>)
    requires |leaves| == cp.body.TreeSize() && TreeRoot(H, leaves) == cp.body.rootHash
    requires VerifyInclusion(H, scheme, cp, proof, key) == Ok(())
    ensures cp.body.seqFrom <= proof.seqNo <= cp.body.seqTo
    ensures
      var index := proof.seqNo - cp.body.seqFrom;
      || ProveInclusion(H, cp, leaves, proof.seqNo) == Ok(proof)
      || CollisionIn(H, TreeInputs(H, leaves) + PathInputs(H, proof.eventHash, index, |leaves|, proof.path))
  {
    hide VerifyCheckpoint, TreeRoot, TreeInputs, PathInputs, Recompute, AuditPath, CollisionIn;
    ProofSound(H, leaves, proof.eventHash, proof.seqNo - cp.body.seqFrom, proof.path);
  }

  /** What is signed reads back as the tag and the encoded body. */
  lemma PayloadReads(encoded: Bytes)
    requires |encoded| <= 0xFFFF_FFFF
    ensures Fields(PayloadInput(encoded)) == Some([Ascii("ancre-checkpoint/1"), encoded])
  {
    hide Fields, Absorbed;
    assert Absorbed(encoded) + [] == Absorbed(encoded);
    NothingRead();
    FieldRead(encoded, []);
    FieldRead(CHECKPOINT_TAG, Absorbed(encoded));
    assert [CHECKPOINT_TAG] + ([encoded] + []) == [CHECKPOINT_TAG, encoded];
  }

  /** What can be proved: a position of the range, to one who holds as many leaves as
      the range has and whose tree is the one signed. */
  lemma ProvableIff(H: HashFn, cp: Checkpoint, leaves: seq<Hash32>, seqNo: nat)
    ensures
      var r := ProveInclusion(H, cp, leaves, seqNo);
      && (r.Ok? <==>
            && cp.body.seqFrom <= seqNo <= cp.body.seqTo && seqNo - cp.body.seqFrom < |leaves|
            && |leaves| == cp.body.TreeSize() && TreeRoot(H, leaves) == cp.body.rootHash)
      && (r == Err(SeqOutOfRange(seqNo, cp.body.seqFrom, cp.body.seqTo)) <==> !(cp.body.seqFrom <= seqNo <= cp.body.seqTo))
      && (r.Ok? ==> r.value.seqNo == seqNo && r.value.eventHash == leaves[seqNo - cp.body.seqFrom])
  {
    hide TreeRoot, AuditPath;
  }

  // ----- What a signature is worth -----

  /** The signature is one the key accepts over the payload of the body. */
  ghost predicate SignedUnder(H: HashFn, scheme: Scheme, cp: Checkpoint, key: Bytes) {
    && scheme.wellFormedKey(key) && SigningPayload(H, cp.body).Ok?
    && scheme.verify(key, SigningPayload(H, cp.body).value, cp.signature)
  }

  /** Every payload the key accepts was made of one of these bodies. */
  ghost predicate SignsOnly(H: HashFn, scheme: Scheme, key: Bytes, bodies: set<CheckpointBody>) {
    forall payload, signature :: scheme.verify(key, payload, signature) ==>
      exists b :: b in bodies && SigningPayload(H, b) == Ok(payload)
  }

  /** Every string hashed for the payloads of some bodies. */
  ghost function AllPayloadInputs(bodies: set<CheckpointBody>): set<Bytes> {
    set b, x | b in bodies && x in PayloadInputs(b) :: x
  }

  /** A checkpoint verifies exactly if the key is well formed and accepts the
      signature; which of the two is wrong is what the error says. */
  lemma CheckpointVerifiesIff(H: HashFn, scheme: Scheme, cp: Checkpoint, key: Bytes)
    ensures VerifyCheckpoint(H, scheme, cp, key) == Ok(()) <==> SignedUnder(H, scheme, cp, key)
    ensures VerifyCheckpoint(H, scheme, cp, key) == Err(BadKey) <==> !scheme.wellFormedKey(key)
    ensures VerifyCheckpoint(H, scheme, cp, key) == Err(BadSignature) <==>
            scheme.wellFormedKey(key) && !SignedUnder(H, scheme, cp, key)
  {
    hide SigningPayload;
    PayloadBindsBody(H, cp.body, cp.body);
  }

  /** Nothing else passes for signed: under a key that accepts only payloads of some
      bodies, what verifies is one of them, or its payload collides with one of
      theirs. */
  lemma VerifiedWasSigned(H: HashFn, scheme: Scheme, cp: Checkpoint, key: Bytes, bodies: set<CheckpointBody>)
    requires SignsOnly(H, scheme, key, bodies) && VerifyCheckpoint(H, scheme, cp, key) == Ok(())
    ensures cp.body in bodies || CollisionIn(H, PayloadInputs(cp.body) + AllPayloadInputs(bodies))
  {
    hide SigningPayload, PayloadInputs, CollisionIn, VerifyCheckpoint;
    CheckpointVerifiesIff(H, scheme, cp, key);
    var payload := SigningPayload(H, cp.body).value;
    assert scheme.verify(key, payload, cp.signature);
    var b :| b in bodies && SigningPayload(H, b) == Ok(payload);
    PayloadBindsBody(H, cp.body, b);
    CollisionInLarger(H, PayloadInputs(cp.body) + PayloadInputs(b), PayloadInputs(cp.body) + AllPayloadInputs(bodies));
  }

  /** An inclusion proof is accepted exactly if the checkpoint is signed, the position
      is in its range and below its leaf count, and the path leads from the event's
      hash to its root. */
  lemma InclusionVerifiesIff(H: HashFn, scheme: Scheme, cp: Checkpoint, proof: InclusionProof, key: Bytes)
    ensures
      VerifyInclusion(H, scheme, cp, proof, key) == Ok(()) <==>
      && SignedUnder(H, scheme, cp, key)
      && cp.body.seqFrom <= proof.seqNo <= cp.body.seqTo
      && proof.seqNo - cp.body.seqFrom < cp.body.TreeSize()
      && Recompute(H, proof.eventHash, proof.seqNo - cp.body.seqFrom, cp.body.TreeSize(), proof.path) == Some(cp.body.rootHash)
    ensures VerifyInclusion(H, scheme, cp, proof, key) == Err(BadSignature) <==>
            scheme.wellFormedKey(key) && !SignedUnder(H, scheme, cp, key)
  {
    hide VerifyCheckpoint, SignedUnder, Recompute;
    CheckpointVerifiesIff(H, scheme, cp, key);
    AcceptedOrWhy(H, scheme, cp, key);
  }

  lemma AcceptedOrWhy(H: HashFn, scheme: Scheme, cp: Checkpoint, key: Bytes)
    ensures VerifyCheckpoint(H, scheme, cp, key) in {Ok(()), Err(BadKey), Err(BadSignature)}
  {
    hide SigningPayload;
    PayloadBindsBody(H, cp.body, cp.body);
  }

  /** The two kinds of signed or chained strings are told apart by their tags: no
      checkpoint payload is hashed from what an event hash is. */
  lemma PayloadIsNoEvent(b: CheckpointBody, e: AuditEvent)
    ensures PayloadInputs(b) !! EventInputs(e)
  {
    BodyEncodesOk(b);
    BodyEncodes(e);
    var x, y := Encode(BodyStruct(b)).value, HashedBytes(e).value;
    assert |CHECKPOINT_TAG| != |EVENT_TAG|;
    if PayloadInput(x) == EventInput(e, y) {
      ShortSeparates(
        CHECKPOINT_TAG, EVENT_TAG, Absorbed(x), Absorbed(e.canonVersion) + (Absorbed(e.prevHash) + Absorbed(y)));
    }
  }
}
