/**
 * Bytes, 32-byte digests, and what it means for a computation to run into a
 * hash collision.
 *
 * The hash primitive (BLAKE3, or SHA-256 behind a feature) is a parameter `H`
 * of everything that hashes: each result holds of every function from byte
 * strings to 32-byte digests.  No such function is injective, so a binding
 * result never says "equal" alone.  It says "equal, or two different strings
 * among the ones these very computations hashed have the same digest".
 */
module Hashing {

  newtype byte = x: int | 0 <= x < 256

  type Bytes = seq<byte>

  type Hash32 = b: Bytes | |b| == 32 witness seq(32, _ => 0)

  type HashFn = Bytes -> Hash32

  /** `prev_hash` of the first event of a chain. */
  const GENESIS: Hash32 :=
    [0, 0, 0, 0, 0, 0, 0, 0, 0, 0, 0, 0, 0, 0, 0, 0, 0, 0, 0, 0, 0, 0, 0, 0, 0, 0, 0, 0, 0, 0, 0, 0]

  /** Two different strings of `hashed` have the same digest. */
  ghost predicate CollisionIn(H: HashFn, hashed: set<Bytes>) {
    exists x, y :: x in hashed && y in hashed && x != y && H(x) == H(y)
  }

  lemma CollisionInLarger(H: HashFn, part: set<Bytes>, whole: set<Bytes>)
    requires part <= whole
    ensures CollisionIn(H, part) ==> CollisionIn(H, whole)
  {
  }

  predicate IsAscii(s: string) {
    forall c :: c in s ==> c < 128 as char
  }

  /** The bytes of an ASCII literal. */
  function Ascii(s: string): (r: Bytes)
    requires IsAscii(s)
    ensures |r| == |s|
    ensures forall i :: 0 <= i < |s| ==> r[i] as int == s[i] as int
  {
    seq(|s|, i requires 0 <= i < |s| => assert s[i] in s; s[i] as int as byte)
  }
}
