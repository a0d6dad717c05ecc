/**
 * The Merkle tree of ancre-canon: roots, audit paths, and recomputing a root
 * from an audit path.  It is the tree of sections 2.1 and 2.1.1 of RFC 6962,
 * except that its leaves are 32-byte digests and the empty tree hashes a tag.
 */
module Merkle {
  import opened Wrappers
  import opened Hashing

  // ----- Domain separation -----

  const LEAF_TAG: Bytes := [0x00]
  const NODE_TAG: Bytes := [0x01]
  const EMPTY_TAG: Bytes := Ascii("ancre-tree/empty")

  function LeafInput(leaf: Hash32): Bytes {
    LEAF_TAG + leaf
  }

  function NodeInput(left: Hash32, right: Hash32): Bytes {
    NODE_TAG + left + right
  }

  function HashLeaf(H: HashFn, leaf: Hash32): Hash32 {
    H(LeafInput(leaf))
  }

  function HashNode(H: HashFn, left: Hash32, right: Hash32): Hash32 {
    H(NodeInput(left, right))
  }

  /** The three kinds of hash input are told apart by length and by their first byte,
      and each kind determines its parts. */
  lemma InputsSeparate(l: Hash32, r: Hash32, l': Hash32, r': Hash32)
    ensures LeafInput(l) == LeafInput(l') ==> l == l'
    ensures NodeInput(l, r) == NodeInput(l', r') ==> l == l' && r == r'
    ensures LeafInput(l) != NodeInput(l', r')
    ensures EMPTY_TAG != LeafInput(l) && EMPTY_TAG != NodeInput(l, r)
    ensures LeafInput(l)[0] == 0 && NodeInput(l, r)[0] == 1 && EMPTY_TAG[0] > 1
  {
    assert LeafInput(l)[1..] == l && LeafInput(l')[1..] == l';
    assert NodeInput(l, r)[1..33] == l && NodeInput(l', r')[1..33] == l';
    assert NodeInput(l, r)[33..] == r && NodeInput(l', r')[33..] == r';
  }

  // ----- The split point -----

  function Pow2(n: nat): (p: nat)
    ensures p >= 1
  {
    if n == 0 then 1 else 2 * Pow2(n - 1)
  }

  /** The number of bits of `m`: the word size less its leading zeros. */
  function BitLength(m: nat): nat {
    if m == 0 then 0 else 1 + BitLength(m / 2)
  }

  lemma {:induction false} BitLengthBounds(m: nat)
    ensures m < Pow2(BitLength(m))
    ensures m > 0 ==> Pow2(BitLength(m) - 1) <= m
  {
    if m > 0 {
      BitLengthBounds(m / 2);
    }
  }

  lemma {:induction false} BitLengthMonotone(m: nat, n: nat)
    requires m <= n
    ensures BitLength(m) <= BitLength(n)
  {
    if m > 0 {
      BitLengthMonotone(m / 2, n / 2);
    }
  }

  ghost predicate IsPow2(k: nat) {
    exists e: nat :: k == Pow2(e)
  }

  /** Shift 1 left by the index of the top bit of `n - 1`.  The split point is
      the power of two k with k < n <= 2k. */
  function LargestPow2Below(n: nat): (k: nat)
    requires n >= 2
    ensures 0 < k < n <= 2 * k
    ensures IsPow2(k)
  {
    BitLengthBounds(n - 1);
    Pow2(BitLength(n - 1) - 1)
  }

  /** No other power of two splits `n` leaves so. */
  lemma SplitUnique(n: nat, e: nat)
    requires n >= 2 && Pow2(e) < n <= 2 * Pow2(e)
    ensures LargestPow2Below(n) == Pow2(e)
  {
    var d: nat :| LargestPow2Below(n) == Pow2(d);
    if d < e {
      Pow2Monotone(d + 1, e);
    } else if e < d {
      Pow2Monotone(e + 1, d);
    }
  }

  // ----- Roots and audit paths -----

  function TreeRoot(H: HashFn, leaves: seq<Hash32>): Hash32 {
    if |leaves| == 0 then H(EMPTY_TAG)
    else if |leaves| == 1 then HashLeaf(H, leaves[0])
    else
      var k := LargestPow2Below(|leaves|);
      HashNode(H, TreeRoot(H, leaves[..k]), TreeRoot(H, leaves[k..]))
  }

  /** Every string hashed while computing `TreeRoot(H, leaves)`. */
  ghost function TreeInputs(H: HashFn, leaves: seq<Hash32>): set<Bytes> {
    if |leaves| == 0 then {EMPTY_TAG}
    else if |leaves| == 1 then {LeafInput(leaves[0])}
    else
      var k := LargestPow2Below(|leaves|);
      {NodeInput(TreeRoot(H, leaves[..k]), TreeRoot(H, leaves[k..]))}
      + TreeInputs(H, leaves[..k]) + TreeInputs(H, leaves[k..])
  }

  /** The siblings of leaf `index` on its way to the root, leaf first. */
  function AuditPath(H: HashFn, leaves: seq<Hash32>, index: nat): seq<Hash32>
    requires index < |leaves|
    decreases |leaves|
  {
    if |leaves| == 1 then []
    else
      var k := LargestPow2Below(|leaves|);
      if index < k then AuditPath(H, leaves[..k], index) + [TreeRoot(H, leaves[k..])]
      else AuditPath(H, leaves[k..], index - k) + [TreeRoot(H, leaves[..k])]
  }

  /** Push the audit path of leaf `index` onto the vector `proof`. */
  method BuildProof(H: HashFn, leaves: seq<Hash32>, index: nat, proof: seq<Hash32>)
    returns (pushed: seq<Hash32>)
    requires index < |leaves|
    ensures pushed == proof + AuditPath(H, leaves, index)
    decreases |leaves|
  {
    pushed := proof;
    if |leaves| <= 1 {
      return;
    }
    var k := LargestPow2Below(|leaves|);
    if index < k {
      pushed := BuildProof(H, leaves[..k], index, pushed);
      pushed := pushed + [TreeRoot(H, leaves[k..])];
    } else {
      pushed := BuildProof(H, leaves[k..], index - k, pushed);
      pushed := pushed + [TreeRoot(H, leaves[..k])];
    }
  }

  method TreeProof(H: HashFn, leaves: seq<Hash32>, index: nat) returns (proof: Option<seq<Hash32>>)
    ensures proof.Some? <==> index < |leaves|
    ensures proof.Some? ==> proof.value == AuditPath(H, leaves, index)
  {
    if index >= |leaves| {
      return None;
    }
    var pushed := BuildProof(H, leaves, index, []);
    proof := Some(pushed);
  }

  // ----- Recomputing a root -----

  /** The root that `leaf` at `index` of a tree of `size` leaves leads to along
      `proof`: the recursion that undoes `AuditPath`. */
  function Recompute(H: HashFn, leaf: Hash32, index: nat, size: nat, proof: seq<Hash32>): Option<Hash32>
    requires index < size
    decreases size
  {
    if size == 1 then
      if proof == [] then Some(HashLeaf(H, leaf)) else None
    else if proof == [] then None
    else
      var k := LargestPow2Below(size);
      var top, rest := proof[|proof| - 1], proof[..|proof| - 1];
      if index < k then
        match Recompute(H, leaf, index, k, rest)
        case None => None
        case Some(left) => Some(HashNode(H, left, top))
      else
        match Recompute(H, leaf, index - k, size - k, rest)
        case None => None
        case Some(right) => Some(HashNode(H, top, right))
  }

  /** Every string hashed on the way. */
  ghost function PathInputs(H: HashFn, leaf: Hash32, index: nat, size: nat, proof: seq<Hash32>): set<Bytes>
    requires index < size
    decreases size
  {
    if size == 1 || proof == [] then {LeafInput(leaf)}
    else
      var k := LargestPow2Below(size);
      var top, rest := proof[|proof| - 1], proof[..|proof| - 1];
      if index < k then
        (match Recompute(H, leaf, index, k, rest)
         case None => {}
         case Some(left) => {NodeInput(left, top)})
        + PathInputs(H, leaf, index, k, rest)
      else
        (match Recompute(H, leaf, index - k, size - k, rest)
         case None => {}
         case Some(right) => {NodeInput(top, right)})
        + PathInputs(H, leaf, index - k, size - k, rest)
  }

  /** On which side of each split the leaf falls, from the root down. */
  ghost function Sides(index: nat, size: nat): seq<bool>
    requires index < size
    decreases size
  {
    if size == 1 then []
    else
      var k := LargestPow2Below(size);
      if index < k then [true] + Sides(index, k) else [false] + Sides(index - k, size - k)
  }

  /** Combine `acc` upward with the siblings of `proof`. */
  ghost function Climb(H: HashFn, acc: Hash32, sides: seq<bool>, proof: seq<Hash32>): Hash32
    requires |sides| == |proof|
  {
    if sides == [] then acc
    else
      var below := Climb(H, acc, sides[1..], proof[..|proof| - 1]);
      var top := proof[|proof| - 1];
      if sides[0] then HashNode(H, below, top) else HashNode(H, top, below)
  }

  lemma {:induction false} RecomputeIsClimb(H: HashFn, leaf: Hash32, index: nat, size: nat, proof: seq<Hash32>)
    requires index < size
    ensures Recompute(H, leaf, index, size, proof) ==
            if |Sides(index, size)| == |proof|
            then Some(Climb(H, HashLeaf(H, leaf), Sides(index, size), proof))
            else None
    decreases size
  {
    hide IsPow2, LargestPow2Below;
    if size > 1 && proof != [] {
      var k := LargestPow2Below(size);
      var rest := proof[..|proof| - 1];
      if index < k {
        RecomputeIsClimb(H, leaf, index, k, rest);
        assert Sides(index, size)[1..] == Sides(index, k);
      } else {
        RecomputeIsClimb(H, leaf, index - k, size - k, rest);
        assert Sides(index, size)[1..] == Sides(index - k, size - k);
      }
    }
  }

  lemma DescendOneMore(above: seq<bool>, index: nat, size: nat)
    requires index < size && size > 1
    ensures var k := LargestPow2Below(size);
            above + Sides(index, size) ==
            if index < k then (above + [true]) + Sides(index, k)
            else (above + [false]) + Sides(index - k, size - k)
  {
    hide IsPow2, LargestPow2Below;
  }

  lemma DescentEnds(index: nat, size: nat)
    requires index < size <= 1
    ensures Sides(index, size) == []
  {
  }

  lemma ClimbNothing(H: HashFn, acc: Hash32, sides: seq<bool>, proof: seq<Hash32>)
    requires sides == [] && proof == []
    ensures Climb(H, acc, sides, proof) == acc
  {
  }

  lemma ClimbOneMore(H: HashFn, acc: Hash32, sides: seq<bool>, proof: seq<Hash32>, i: nat)
    requires i < |sides| == |proof|
    ensures var n := |proof|;
            var below := Climb(H, acc, sides[n - i..], proof[..i]);
            Climb(H, acc, sides[n - i - 1..], proof[..i + 1]) ==
            if sides[n - i - 1] then HashNode(H, below, proof[i]) else HashNode(H, proof[i], below)
  {
    var n := |proof|;
    assert sides[n - i - 1..][1..] == sides[n - i..];
    assert proof[..i + 1][..i] == proof[..i];
  }

  /** Walk down recording sides, then combine upward: the two loops compute
      what the recursion says. */
  method RootFromProof(H: HashFn, leaf: Hash32, index: nat, treeSize: nat, proof: seq<Hash32>)
    returns (root: Option<Hash32>)
    ensures index >= treeSize ==> root.None?
    ensures index < treeSize ==> root == Recompute(H, leaf, index, treeSize, proof)
  {
    if index >= treeSize {
      return None;
    }
    hide IsPow2, LargestPow2Below, Recompute, Sides, Climb;
    assert index < treeSize;
    RecomputeIsClimb(H, leaf, index, treeSize, proof);
    var sideIsLeft: seq<bool> := [];
    var idx, size := index, treeSize;
    assert sideIsLeft + Sides(idx, size) == Sides(index, treeSize);
    while size > 1
      invariant idx < size
      invariant sideIsLeft + Sides(idx, size) == Sides(index, treeSize)
    {
      var k := LargestPow2Below(size);
      DescendOneMore(sideIsLeft, idx, size);
      if idx < k {
        sideIsLeft := sideIsLeft + [true];
        size := k;
      } else {
        sideIsLeft := sideIsLeft + [false];
        idx, size := idx - k, size - k;
      }
    }
    assert sideIsLeft == Sides(index, treeSize) by {
      DescentEnds(idx, size);
    }
    if |sideIsLeft| != |proof| {
      return None;
    }
    var n := |proof|;
    var acc := HashLeaf(H, leaf);
    ClimbNothing(H, acc, sideIsLeft[n..], proof[..0]);
    for i := 0 to n
      invariant acc == Climb(H, HashLeaf(H, leaf), sideIsLeft[n - i..], proof[..i])
    {
      ClimbOneMore(H, HashLeaf(H, leaf), sideIsLeft, proof, i);
      acc := if sideIsLeft[n - 1 - i] then HashNode(H, acc, proof[i]) else HashNode(H, proof[i], acc);
    }
    assert sideIsLeft[0..] == sideIsLeft && proof[..n] == proof;
    root := Some(acc);
  }

  // ----- What the tree promises -----

  /** Complete: the path the recursion builds leads the loops back to the root. */
  lemma {:induction false} ProofComplete(H: HashFn, leaves: seq<Hash32>, index: nat)
    requires index < |leaves|
    ensures Recompute(H, leaves[index], index, |leaves|, AuditPath(H, leaves, index))
            == Some(TreeRoot(H, leaves))
    decreases |leaves|
  {
    hide IsPow2, LargestPow2Below, HashNode, HashLeaf;
    if |leaves| > 1 {
      var k := LargestPow2Below(|leaves|);
      var path := AuditPath(H, leaves, index);
      if index < k {
        ProofComplete(H, leaves[..k], index);
        assert path[..|path| - 1] == AuditPath(H, leaves[..k], index);
      } else {
        ProofComplete(H, leaves[k..], index - k);
        assert path[..|path| - 1] == AuditPath(H, leaves[k..], index - k);
      }
    }
  }

  /** Short: no longer than log2 n rounded up, which is the number of bits of
      n - 1 (see `CeilLog2`). */
  lemma {:induction false} ProofShort(H: HashFn, leaves: seq<Hash32>, index: nat)
    requires index < |leaves|
    ensures |AuditPath(H, leaves, index)| <= BitLength(|leaves| - 1)
    decreases |leaves|
  {
    hide IsPow2, LargestPow2Below, TreeRoot, BitLength;
    var n := |leaves|;
    if n > 1 {
      var k := SplitShortens(n);
      if index < k {
        ProofShort(H, leaves[..k], index);
      } else {
        ProofShort(H, leaves[k..], index - k);
      }
    }
  }

  lemma SplitShortens(n: nat) returns (k: nat)
    requires n >= 2
    ensures k == LargestPow2Below(n)
    ensures BitLength(k - 1) < BitLength(n - 1) && BitLength(n - k - 1) < BitLength(n - 1)
  {
    k := LargestPow2Below(n);
    BitLengthBounds(n - 1);
    Pow2BitLength(BitLength(n - 1) - 1);
    BitLengthMonotone(n - k - 1, k - 1);
  }

  /** The number of bits of n - 1 is the least e with n <= 2^e. */
  lemma CeilLog2(n: nat, e: nat)
    requires n >= 1
    ensures n <= Pow2(e) <==> BitLength(n - 1) <= e
  {
    BitLengthBounds(n - 1);
    if BitLength(n - 1) <= e {
      Pow2Monotone(BitLength(n - 1), e);
    } else {
      Pow2Monotone(e, BitLength(n - 1) - 1);
    }
  }

  lemma {:induction false} Pow2Monotone(d: nat, e: nat)
    requires d <= e
    ensures Pow2(d) <= Pow2(e)
  {
    if d > 0 {
      Pow2Monotone(d - 1, e - 1);
    }
  }

  lemma {:induction false} Pow2BitLength(e: nat)
    ensures BitLength(Pow2(e) - 1) == e
  {
    if e > 0 {
      Pow2BitLength(e - 1);
      assert (2 * Pow2(e - 1) - 1) / 2 == Pow2(e - 1) - 1;
    }
  }

  /** Binding: equal roots mean equal leaf lists, of whatever lengths. */
  lemma TreeRootBinds(H: HashFn, a: seq<Hash32>, b: seq<Hash32>)
    requires TreeRoot(H, a) == TreeRoot(H, b)
    ensures a == b || CollisionIn(H, TreeInputs(H, a) + TreeInputs(H, b))
  {
    if !CollisionIn(H, TreeInputs(H, a) + TreeInputs(H, b)) {
      RootDeterminesLeaves(H, a, b);
    }
  }

  lemma SameInput(H: HashFn, hashed: set<Bytes>, x: Bytes, y: Bytes)
    requires !CollisionIn(H, hashed) && x in hashed && y in hashed && H(x) == H(y)
    ensures x == y
  {
  }

  lemma {:induction false} RootDeterminesLeaves(H: HashFn, a: seq<Hash32>, b: seq<Hash32>)
    requires TreeRoot(H, a) == TreeRoot(H, b)
    requires !CollisionIn(H, TreeInputs(H, a) + TreeInputs(H, b))
    ensures a == b
    decreases |a|
  {
    hide IsPow2, LargestPow2Below, CollisionIn;
    var hashed := TreeInputs(H, a) + TreeInputs(H, b);
    SameInput(H, hashed, RootInput(H, a), RootInput(H, b));
    if |a| >= 2 && |b| >= 2 {
      var j, k := LargestPow2Below(|a|), LargestPow2Below(|b|);
      InputsSeparate(TreeRoot(H, a[..j]), TreeRoot(H, a[j..]), TreeRoot(H, b[..k]), TreeRoot(H, b[k..]));
      CollisionInLarger(H, TreeInputs(H, a[..j]) + TreeInputs(H, b[..k]), hashed);
      RootDeterminesLeaves(H, a[..j], b[..k]);
      CollisionInLarger(H, TreeInputs(H, a[j..]) + TreeInputs(H, b[k..]), hashed);
      RootDeterminesLeaves(H, a[j..], b[k..]);
      assert a == a[..j] + a[j..] && b == b[..k] + b[k..];
    } else if |a| == 1 && |b| == 1 {
      InputsSeparate(a[0], a[0], b[0], b[0]);
    }
  }

  /** The last string hashed for a root. */
  ghost function RootInput(H: HashFn, leaves: seq<Hash32>): (input: Bytes)
    ensures input in TreeInputs(H, leaves) && H(input) == TreeRoot(H, leaves)
    ensures |input| == if |leaves| == 0 then 16 else if |leaves| == 1 then 33 else 65
  {
    if |leaves| == 0 then EMPTY_TAG
    else if |leaves| == 1 then LeafInput(leaves[0])
    else
      var k := LargestPow2Below(|leaves|);
      NodeInput(TreeRoot(H, leaves[..k]), TreeRoot(H, leaves[k..]))
  }

  /** Sound and unique: a leaf and a path that lead to the root of `leaves` are
      the leaf at that index and its own audit path. */
  lemma ProofSound(H: HashFn, leaves: seq<Hash32>, leaf: Hash32, index: nat, proof: seq<Hash32>)
    requires index < |leaves|
    requires Recompute(H, leaf, index, |leaves|, proof) == Some(TreeRoot(H, leaves))
    ensures (leaf == leaves[index] && proof == AuditPath(H, leaves, index))
            || CollisionIn(H, TreeInputs(H, leaves) + PathInputs(H, leaf, index, |leaves|, proof))
  {
    if !CollisionIn(H, TreeInputs(H, leaves) + PathInputs(H, leaf, index, |leaves|, proof)) {
      PathDeterminesLeaf(H, leaves, leaf, index, proof);
    }
  }

  lemma {:induction false} PathDeterminesLeaf(H: HashFn, leaves: seq<Hash32>, leaf: Hash32, index: nat, proof: seq<Hash32>)
    requires index < |leaves|
    requires Recompute(H, leaf, index, |leaves|, proof) == Some(TreeRoot(H, leaves))
    requires !CollisionIn(H, TreeInputs(H, leaves) + PathInputs(H, leaf, index, |leaves|, proof))
    ensures leaf == leaves[index] && proof == AuditPath(H, leaves, index)
    decreases |leaves|
  {
    hide IsPow2, LargestPow2Below, TreeRoot, Recompute, TreeInputs, PathInputs, CollisionIn;
    var n := |leaves|;
    if n == 1 {
      OnlyLeaf(H, leaves, leaf, proof);
    } else {
      var k := LargestPow2Below(n);
      if index < k {
        LeftStep(H, leaves, leaf, index, proof);
        PathDeterminesLeaf(H, leaves[..k], leaf, index, proof[..|proof| - 1]);
      } else {
        RightStep(H, leaves, leaf, index, proof);
        PathDeterminesLeaf(H, leaves[k..], leaf, index - k, proof[..|proof| - 1]);
      }
      assert proof == proof[..|proof| - 1] + [proof[|proof| - 1]];
    }
  }

  lemma OnlyLeaf(H: HashFn, leaves: seq<Hash32>, leaf: Hash32, proof: seq<Hash32>)
    requires |leaves| == 1
    requires Recompute(H, leaf, 0, 1, proof) == Some(TreeRoot(H, leaves))
    requires !CollisionIn(H, TreeInputs(H, leaves) + PathInputs(H, leaf, 0, 1, proof))
    ensures leaf == leaves[0] && proof == []
  {
    assert {LeafInput(leaf), LeafInput(leaves[0])} <= TreeInputs(H, leaves) + PathInputs(H, leaf, 0, 1, proof);
    InputsSeparate(leaf, leaf, leaves[0], leaves[0]);
  }

  lemma LeftStep(H: HashFn, leaves: seq<Hash32>, leaf: Hash32, index: nat, proof: seq<Hash32>)
    requires |leaves| > 1 && index < LargestPow2Below(|leaves|)
    requires Recompute(H, leaf, index, |leaves|, proof) == Some(TreeRoot(H, leaves))
    requires !CollisionIn(H, TreeInputs(H, leaves) + PathInputs(H, leaf, index, |leaves|, proof))
    ensures proof != []
    ensures var k, rest := LargestPow2Below(|leaves|), proof[..|proof| - 1];
            && proof[|proof| - 1] == TreeRoot(H, leaves[k..])
            && Recompute(H, leaf, index, k, rest) == Some(TreeRoot(H, leaves[..k]))
            && !CollisionIn(H, TreeInputs(H, leaves[..k]) + PathInputs(H, leaf, index, k, rest))
  {
    hide IsPow2, LargestPow2Below;
    var k, top, rest := LargestPow2Below(|leaves|), proof[|proof| - 1], proof[..|proof| - 1];
    var hashed := TreeInputs(H, leaves) + PathInputs(H, leaf, index, |leaves|, proof);
    var left, right := TreeRoot(H, leaves[..k]), TreeRoot(H, leaves[k..]);
    var below := Recompute(H, leaf, index, k, rest).value;
    assert NodeInput(left, right) in hashed && NodeInput(below, top) in hashed;
    InputsSeparate(below, top, left, right);
    CollisionInLarger(H, TreeInputs(H, leaves[..k]) + PathInputs(H, leaf, index, k, rest), hashed);
  }

  lemma RightStep(H: HashFn, leaves: seq<Hash32>, leaf: Hash32, index: nat, proof: seq<Hash32>)
    requires |leaves| > 1 && LargestPow2Below(|leaves|) <= index < |leaves|
    requires Recompute(H, leaf, index, |leaves|, proof) == Some(TreeRoot(H, leaves))
    requires !CollisionIn(H, TreeInputs(H, leaves) + PathInputs(H, leaf, index, |leaves|, proof))
    ensures proof != []
    ensures var k, rest := LargestPow2Below(|leaves|), proof[..|proof| - 1];
            && proof[|proof| - 1] == TreeRoot(H, leaves[..k])
            && Recompute(H, leaf, index - k, |leaves| - k, rest) == Some(TreeRoot(H, leaves[k..]))
            && !CollisionIn(H, TreeInputs(H, leaves[k..]) + PathInputs(H, leaf, index - k, |leaves| - k, rest))
  {
    hide IsPow2, LargestPow2Below;
    var n, k, top, rest := |leaves|, LargestPow2Below(|leaves|), proof[|proof| - 1], proof[..|proof| - 1];
    var hashed := TreeInputs(H, leaves) + PathInputs(H, leaf, index, n, proof);
    var left, right := TreeRoot(H, leaves[..k]), TreeRoot(H, leaves[k..]);
    var below := Recompute(H, leaf, index - k, n - k, rest).value;
    assert NodeInput(left, right) in hashed && NodeInput(top, below) in hashed;
    InputsSeparate(top, below, left, right);
    CollisionInLarger(H, TreeInputs(H, leaves[k..]) + PathInputs(H, leaf, index - k, n - k, rest), hashed);
  }

  // ----- The shape of the tree -----

  lemma {:induction false} CompleteDepth(index: nat, e: nat)
    requires index < Pow2(e)
    ensures |Sides(index, Pow2(e))| == e
  {
    hide IsPow2, LargestPow2Below;
    if e > 0 {
      SplitUnique(Pow2(e), e - 1);
      CompleteDepth(if index < Pow2(e - 1) then index else index - Pow2(e - 1), e - 1);
    }
  }

  /** The left subtree of every split is complete: its leaves are all equally deep,
      as deep as any leaf can be. */
  lemma LeftIsComplete(index: nat, n: nat)
    requires n >= 2 && index < LargestPow2Below(n)
    ensures |Sides(index, n)| == BitLength(n - 1)
  {
    hide BitLength;
    var k := LargestPow2Below(n);
    BitLengthBounds(n - 1);
    var e := BitLength(n - 1) - 1;
    if BitLength(n - 1) > 0 {
      SplitUnique(n, e);
      CompleteDepth(index, e);
    }
  }

  /** One level up: neighbours are combined, an odd one out is carried. */
  function Level(H: HashFn, hs: seq<Hash32>): (r: seq<Hash32>)
    ensures |r| == (|hs| + 1) / 2
  {
    if |hs| < 2 then hs else [HashNode(H, hs[0], hs[1])] + Level(H, hs[2..])
  }

  /** The tree built from below, level by level. */
  function ByLevels(H: HashFn, hs: seq<Hash32>): Hash32
    requires hs != []
    decreases |hs|
  {
    if |hs| == 1 then hs[0] else ByLevels(H, Level(H, hs))
  }

  function HashedLeaves(H: HashFn, leaves: seq<Hash32>): (r: seq<Hash32>)
    ensures |r| == |leaves| && forall i :: 0 <= i < |leaves| ==> r[i] == HashLeaf(H, leaves[i])
  {
    seq(|leaves|, i requires 0 <= i < |leaves| => HashLeaf(H, leaves[i]))
  }

  /** The tree by splitting, over nodes. */
  function BySplits(H: HashFn, hs: seq<Hash32>): Hash32
    requires hs != []
  {
    if |hs| == 1 then hs[0]
    else
      var k := LargestPow2Below(|hs|);
      HashNode(H, BySplits(H, hs[..k]), BySplits(H, hs[k..]))
  }

  lemma {:induction false} RootBySplits(H: HashFn, leaves: seq<Hash32>)
    requires leaves != []
    ensures TreeRoot(H, leaves) == BySplits(H, HashedLeaves(H, leaves))
    decreases |leaves|
  {
    hide IsPow2, LargestPow2Below, HashNode, HashLeaf;
    if |leaves| > 1 {
      var k, hs := LargestPow2Below(|leaves|), HashedLeaves(H, leaves);
      assert hs[..k] == HashedLeaves(H, leaves[..k]) && hs[k..] == HashedLeaves(H, leaves[k..]);
      RootBySplits(H, leaves[..k]);
      RootBySplits(H, leaves[k..]);
    }
  }

  lemma {:induction false} LevelParts(H: HashFn, hs: seq<Hash32>, k: nat)
    requires k <= |hs| && k % 2 == 0
    ensures Level(H, hs) == Level(H, hs[..k]) + Level(H, hs[k..])
    decreases k
  {
    hide HashNode;
    if k > 0 {
      LevelParts(H, hs[2..], k - 2);
      assert hs[..k][2..] == hs[2..][..k - 2] && hs[2..][k - 2..] == hs[k..];
    }
  }

  lemma HalfSplit(n: nat) returns (k: nat)
    requires n > 2
    ensures k == LargestPow2Below(n) && k >= 2 && k % 2 == 0
    ensures LargestPow2Below((n + 1) / 2) == k / 2
  {
    k := LargestPow2Below(n);
    var e: nat :| k == Pow2(e);
    hide LargestPow2Below;
    assert e > 0;
    SplitUnique((n + 1) / 2, e - 1);
  }

  lemma {:induction false} OneLevelUp(H: HashFn, hs: seq<Hash32>)
    requires hs != []
    ensures BySplits(H, Level(H, hs)) == BySplits(H, hs)
    decreases |hs|
  {
    hide HashNode;
    var n := |hs|;
    if n == 2 {
      SplitUnique(2, 0);
      assert hs[2..] == [];
    } else if n > 2 {
      hide LargestPow2Below, IsPow2, Level;
      var k := HalfSplit(n);
      LevelParts(H, hs, k);
      var up := Level(H, hs);
      assert up[..k / 2] == Level(H, hs[..k]) && up[k / 2..] == Level(H, hs[k..]);
      OneLevelUp(H, hs[..k]);
      OneLevelUp(H, hs[k..]);
    }
  }

  lemma {:induction false} SplitsAreLevels(H: HashFn, hs: seq<Hash32>)
    requires hs != []
    ensures BySplits(H, hs) == ByLevels(H, hs)
    decreases |hs|
  {
    hide HashNode, Level, LargestPow2Below, IsPow2;
    if |hs| > 1 {
      OneLevelUp(H, hs);
      SplitsAreLevels(H, Level(H, hs));
    }
  }

  /** Splitting from above at powers of two is combining neighbours from below, level
      by level. */
  lemma RootIsByLevels(H: HashFn, leaves: seq<Hash32>)
    ensures TreeRoot(H, leaves) == if leaves == [] then H(Ascii("ancre-tree/empty")) else ByLevels(H, HashedLeaves(H, leaves))
  {
    if leaves != [] {
      RootBySplits(H, leaves);
      SplitsAreLevels(H, HashedLeaves(H, leaves));
    }
  }
}
