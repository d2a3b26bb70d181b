/**
 The Merkle commitment over ciphertext chunks (`merkle.rs`): a left-balanced tree that
 splits at the largest power of two below the leaf count, inclusion proofs that run
 from the leaf upward, and a verifier that recomputes the shape of the path from the
 leaf count and the index alone.
 */
module Merkle {
  import opened Octets
  import opened PowersOfTwo

  const HASH_LEN := 32

  type Hash = h: Bytes | |h| == HASH_LEN witness Output(Blake3([]), HASH_LEN)

  datatype ProofError = IndexOutOfRange | DepthExceeded | TrailingSiblings | RootMismatch | Malformed

  datatype Direction = Left | Right

  datatype ProofStep = ProofStep(direction: Direction, hash: Hash)

  const LEAF_DOMAIN := "RTP2-MERKLE-LEAF-v1\0"
  const NODE_DOMAIN := "RTP2-MERKLE-NODE-v1\0"
  const EMPTY_DOMAIN := "RTP2-MERKLE-EMPTY-v1\0"

  function LeafHash(index: nat, ciphertext: Bytes): Hash {
    Output(Blake3(Ascii(LEAF_DOMAIN) + (BigEndian(index, 8) + (BigEndian(|ciphertext|, 4) + ciphertext))), HASH_LEN)
  }

  function NodeHash(left: Hash, right: Hash): Hash {
    Output(Blake3(Ascii(NODE_DOMAIN) + (left + right)), HASH_LEN)
  }

  function EmptyRoot(): Hash {
    Output(Blake3(Ascii(EMPTY_DOMAIN)), HASH_LEN)
  }

  // --- Where a tree splits ---

  /** Where a tree of `n` leaves splits. */
  function Split(n: nat): nat
    requires n > 1
  {
    BitLengthBounds(n - 1);
    Pow2(BitLength(n - 1) - 1)
  }

  /** The split is a power of two in [n/2, n), and it is the only one. */
  lemma SplitIs(n: nat, d: nat)
    requires n > 1
    ensures Split(n) < n <= 2 * Split(n)
    ensures Split(n) == Pow2(d) <==> Pow2(d) < n <= 2 * Pow2(d)
  {
    BitLengthBounds(n - 1);
    var e := BitLength(n - 1) - 1;
    assert Pow2(e + 1) == 2 * Pow2(e);
    if d < e {
      Pow2Increases(d, e);
    } else if e < d {
      Pow2Increases(e, d);
    }
  }

  lemma SplitBounds(n: nat)
    requires n > 1
    ensures 0 < Split(n) < n <= 2 * Split(n)
  {
    SplitIs(n, 0);
  }

  /** The tree builder's loop: double while twice the candidate is below `n`. */
  method LargestPowerOfTwoBelow(n: nat) returns (k: nat)
    requires n > 1
    ensures k == Split(n)
    ensures n <= U64_LIMIT / 2 ==> 2 * k < U64_LIMIT
  {
    k := 1;
    ghost var d := 0;
    while k * 2 < n
      invariant k == Pow2(d)
      invariant k < n
    {
      k := k * 2;
      d := d + 1;
    }
    SplitIs(n, d);
  }

  /** The verifier's loop: compare against half of `n - 1`, so that no 64-bit product overflows. */
  method LargestPowerOfTwoBelowU64(n: nat) returns (k: nat)
    requires 1 < n < U64_LIMIT
    ensures k == Split(n)
  {
    k := 1;
    ghost var d := 0;
    while k <= (n - 1) / 2
      invariant k == Pow2(d)
      invariant k < n
      decreases n - k
    {
      assert k * 2 < U64_LIMIT;
      k := k * 2;
      d := d + 1;
    }
    SplitIs(n, d);
  }

  /** The builder's loop on 64-bit words: its guard, and its candidate after `t` rounds. */
  predicate WrappingGuard(k: nat, n: nat) {
    (k * 2) % U64_LIMIT < n
  }

  function Doubled(t: nat): nat {
    if t == 0 then 1 else (Doubled(t - 1) * 2) % U64_LIMIT
  }

  lemma Pow2Around63(t: nat)
    ensures Pow2(t + 1) == 2 * Pow2(t)
    ensures if t < 63 then 2 * Pow2(t) <= U64_LIMIT / 2 else Pow2(t) >= U64_LIMIT / 2
    ensures t == 63 ==> Pow2(t) == U64_LIMIT / 2
  {
    hide Pow2;
    Pow2Of63();
    Pow2Step(t);
    if t < 63 {
      Pow2Increases(t, 63);
    } else if t > 63 {
      Pow2Increases(63, t);
    }
  }

  lemma {:induction false} DoubledIs(t: nat)
    ensures Doubled(t) == if t < 64 then Pow2(t) else 0
  {
    hide Pow2;
    Pow2Step(0);
    if t > 0 {
      DoubledIs(t - 1);
      Pow2Around63(t - 1);
      WrapDouble(Doubled(t - 1));
    }
  }

  lemma WrapDouble(p: nat)
    requires p <= U64_LIMIT / 2
    ensures (p * 2) % U64_LIMIT == if p < U64_LIMIT / 2 then 2 * p else 0
  {
  }

  /** The guard fails in the rounds that reach half of `n` before the candidate wraps. */
  lemma GuardFails(n: nat, t: nat)
    requires 1 < n < U64_LIMIT
    ensures !WrappingGuard(Doubled(t), n) <==> t < 63 && n <= 2 * Pow2(t)
  {
    hide Pow2, Doubled;
    DoubledIs(t);
    Pow2Around63(t);
    WrapDouble(Doubled(t));
  }

  /** The guard fails for the first time after `t` rounds. */
  ghost predicate EndsAt(t: nat, n: nat) {
    !WrappingGuard(Doubled(t), n) && (t > 0 ==> WrappingGuard(Doubled(t - 1), n))
  }

  /**
   Run on 64-bit words, the builder's loop ends exactly when `n` is at most 2^63, and then at
   the split. Beyond that the candidate wraps to zero, and zero doubled stays below `n`.
   */
  lemma BuilderLoopEnds(n: nat)
    requires 1 < n < U64_LIMIT
    ensures (exists t: nat :: EndsAt(t, n)) <==> n <= U64_LIMIT / 2
    ensures forall t: nat :: EndsAt(t, n) ==> Doubled(t) == Split(n)
  {
    hide Pow2, Doubled, EndsAt, Split;
    var d := SplitExponent(n);
    RoundFails(n, d);
    forall t: nat | EndsAt(t, n) ensures Doubled(t) == Split(n) && n <= U64_LIMIT / 2 {
      RoundFails(n, t);
      SplitIs(n, t);
    }
  }

  lemma RoundFails(n: nat, t: nat)
    requires 1 < n < U64_LIMIT
    ensures EndsAt(t, n) <==> n <= U64_LIMIT / 2 && Pow2(t) < n <= 2 * Pow2(t)
    ensures EndsAt(t, n) ==> Doubled(t) == Pow2(t)
  {
    hide Pow2, Doubled, WrappingGuard;
    Pow2Step(0);
    GuardFails(n, t);
    DoubledIs(t);
    Pow2Around63(t);
    if t > 0 {
      GuardFails(n, t - 1);
      Pow2Around63(t - 1);
    }
  }

  lemma SplitExponent(n: nat) returns (d: nat)
    requires n > 1
    ensures Split(n) == Pow2(d) && Pow2(d) < n <= 2 * Pow2(d)
  {
    BitLengthBounds(n - 1);
    d := BitLength(n - 1) - 1;
    SplitIs(n, d);
  }

  // --- The tree ---

  function Root(leaves: seq<Hash>): Hash
    decreases |leaves|
  {
    if |leaves| == 0 then EmptyRoot()
    else if |leaves| == 1 then leaves[0]
    else
      SplitBounds(|leaves|);
      var k := Split(|leaves|);
      NodeHash(Root(leaves[..k]), Root(leaves[k..]))
  }

  function BuildProof(leaves: seq<Hash>, index: nat): Result<seq<ProofStep>, ProofError> {
    if index >= |leaves| then Err(IndexOutOfRange) else Ok(ProofFor(leaves, index))
  }

  /** Siblings from the leaf upward, each with the side it stands on. */
  function ProofFor(leaves: seq<Hash>, index: nat): seq<ProofStep>
    requires index < |leaves|
    decreases |leaves|
  {
    if |leaves| <= 1 then []
    else
      SplitBounds(|leaves|);
      var k := Split(|leaves|);
      if index < k
      then ProofFor(leaves[..k], index) + [ProofStep(Right, Root(leaves[k..]))]
      else ProofFor(leaves[k..], index - k) + [ProofStep(Left, Root(leaves[..k]))]
  }

  /** The directions the verifier expects, from the leaf count and the index alone. */
  function Directions(leafCount: nat, index: nat): seq<Direction>
    requires index < leafCount
    decreases leafCount
  {
    if leafCount <= 1 then []
    else
      SplitBounds(leafCount);
      var k := Split(leafCount);
      if index < k then Directions(k, index) + [Right]
      else Directions(leafCount - k, index - k) + [Left]
  }

  method ExpectedDirections(leafCount: nat, index: nat) returns (dirs: seq<Direction>)
    requires index < leafCount < U64_LIMIT
    ensures dirs == Directions(leafCount, index)
    decreases leafCount
  {
    if leafCount <= 1 {
      return [];
    }
    var k := LargestPowerOfTwoBelowU64(leafCount);
    SplitBounds(leafCount);
    if index < k {
      dirs := ExpectedDirections(k, index);
      dirs := dirs + [Right];
    } else {
      dirs := ExpectedDirections(leafCount - k, index - k);
      dirs := dirs + [Left];
    }
  }

  function Combine(acc: Hash, step: ProofStep): Hash {
    if step.direction == Left then NodeHash(step.hash, acc) else NodeHash(acc, step.hash)
  }

  /** The root a proof leads to from a given leaf. */
  function Climb(leaf: Hash, siblings: seq<ProofStep>): Hash {
    if siblings == [] then leaf
    else Combine(Climb(leaf, siblings[..|siblings| - 1]), siblings[|siblings| - 1])
  }

  function DirectionsOf(siblings: seq<ProofStep>): (d: seq<Direction>)
    ensures |d| == |siblings|
  {
    seq(|siblings|, i requires 0 <= i < |siblings| => siblings[i].direction)
  }

  /** What verification means: the canonical path shape, and a climb that ends at the root. */
  predicate Proves(leaf: Hash, index: nat, leafCount: nat, siblings: seq<ProofStep>, root: Hash) {
    && index < leafCount
    && DirectionsOf(siblings) == Directions(leafCount, index)
    && Climb(leaf, siblings) == root
  }

  function BitLengthDepth(leafCount: nat): nat
    requires leafCount > 0
  {
    BitLength(leafCount - 1)
  }

  /** `verify_proof`: bounds, depth, length, directions, then the climb. */
  method VerifyProof(leaf: Hash, index: nat, leafCount: nat, siblings: seq<ProofStep>, root: Hash)
    returns (r: Result<(), ProofError>)
    requires leafCount < U64_LIMIT
    ensures r.Ok? <==> Proves(leaf, index, leafCount, siblings, root)
    ensures r == Err(IndexOutOfRange) <==> index >= leafCount
    ensures r == Err(DepthExceeded) <==> index < leafCount && |siblings| > BitLengthDepth(leafCount)
    ensures r == Err(TrailingSiblings) <==>
              index < leafCount && |siblings| <= BitLengthDepth(leafCount) &&
                  |siblings| != |Directions(leafCount, index)|
    ensures r == Err(Malformed) <==>
              && index < leafCount && |siblings| == |Directions(leafCount, index)|
              && DirectionsOf(siblings) != Directions(leafCount, index)
    ensures r == Err(RootMismatch) <==>
              index < leafCount && DirectionsOf(siblings) == Directions(leafCount, index) &&
                  Climb(leaf, siblings) != root
  {
    if index >= leafCount {
      return Err(IndexOutOfRange);
    }
    if leafCount == 0 {
      return Err(Malformed);
    }
    DirectionsDepth(leafCount, index);
    if |siblings| > BitLengthDepth(leafCount) {
      return Err(DepthExceeded);
    }
    var expected := ExpectedDirections(leafCount, index);
    if |siblings| != |expected| {
      return Err(TrailingSiblings);
    }
    for i := 0 to |siblings|
      invariant forall j :: 0 <= j < i ==> siblings[j].direction == expected[j]
    {
      if siblings[i].direction != expected[i] {
        assert DirectionsOf(siblings)[i] != expected[i];
        return Err(Malformed);
      }
    }
    var acc := leaf;
    for i := 0 to |siblings|
      invariant acc == Climb(leaf, siblings[..i])
    {
      assert siblings[..i + 1][..i] == siblings[..i];
      acc := Combine(acc, siblings[i]);
    }
    assert siblings[..|siblings|] == siblings;
    return if acc == root then Ok(()) else Err(RootMismatch);
  }

  // --- Completeness and shape ---

  /** Either side of a split is at least one level shallower. */
  lemma SidesAreShallower(n: nat)
    requires n > 1
    ensures 0 < Split(n) < n
    ensures BitLengthDepth(Split(n)) < BitLengthDepth(n) && BitLengthDepth(n - Split(n)) < BitLengthDepth(n)
  {
    hide Pow2, BitLength;
    SplitBounds(n);
    BitLengthBounds(n - 1);
    BitLengthOfPow2(BitLength(n - 1) - 1);
    BitLengthMonotone(n - Split(n) - 1, Split(n) - 1);
  }

  lemma DepthBounds(n: nat)
    requires n > 0
    ensures n <= Pow2(BitLengthDepth(n)) < 2 * n
  {
    if n > 1 {
      BitLengthBounds(n - 1);
      assert Pow2(BitLength(n - 1)) == 2 * Pow2(BitLength(n - 1) - 1);
    }
  }

  /** A path is never longer than ceil(log2 n), so the depth check never refuses a canonical path. */
  lemma {:induction false} DirectionsDepth(n: nat, index: nat)
    requires index < n
    ensures |Directions(n, index)| <= BitLengthDepth(n)
    ensures n <= Pow2(BitLengthDepth(n)) < 2 * n
    decreases n
  {
    hide Split, Pow2, BitLengthDepth;
    DepthBounds(n);
    if n > 1 {
      SidesAreShallower(n);
      var k := Split(n);
      if index < k {
        DirectionsDepth(k, index);
      } else {
        DirectionsDepth(n - k, index - k);
      }
    }
  }

  /** One more sibling on top of a path. */
  lemma ClimbOneMore(leaf: Hash, path: seq<ProofStep>, step: ProofStep)
    ensures Climb(leaf, path + [step]) == Combine(Climb(leaf, path), step)
    ensures DirectionsOf(path + [step]) == DirectionsOf(path) + [step.direction]
  {
    assert (path + [step])[..|path|] == path;
  }

  /** One level of a proof, its root and its directions: the side of the leaf, then the other side. */
  lemma ProofUnfolds(leaves: seq<Hash>, index: nat, k: nat)
    requires index < |leaves| && |leaves| > 1 && k == Split(|leaves|)
    ensures 0 < k < |leaves| && Root(leaves) == NodeHash(Root(leaves[..k]), Root(leaves[k..]))
    ensures index < k ==>
              && ProofFor(leaves, index) == ProofFor(leaves[..k], index) + [ProofStep(Right, Root(leaves[k..]))]
              && Directions(|leaves|, index) == Directions(k, index) + [Right]
    ensures index >= k ==>
              && ProofFor(leaves, index) == ProofFor(leaves[k..], index - k) + [ProofStep(Left, Root(leaves[..k]))]
              && Directions(|leaves|, index) == Directions(|leaves| - k, index - k) + [Left]
  {
    hide Split, NodeHash;
    SplitBounds(|leaves|);
  }

  /** Every built proof climbs to the root along the expected directions. */
  lemma {:induction false} BuiltProofProves(leaves: seq<Hash>, index: nat)
    requires index < |leaves|
    ensures Proves(leaves[index], index, |leaves|, ProofFor(leaves, index), Root(leaves))
    decreases |leaves|
  {
    if |leaves| == 1 {
      SingleProof(leaves);
    } else {
      BuiltProofGrows(leaves, index, Split(|leaves|));
    }
  }

  lemma SingleProof(leaves: seq<Hash>)
    requires |leaves| == 1
    ensures Proves(leaves[0], 0, 1, ProofFor(leaves, 0), Root(leaves))
  {
  }

  lemma BuiltProofGrows(leaves: seq<Hash>, index: nat, k: nat)
    requires index < |leaves| && |leaves| > 1 && k == Split(|leaves|)
    ensures Proves(leaves[index], index, |leaves|, ProofFor(leaves, index), Root(leaves))
    decreases |leaves|, 0
  {
    hide Split, Root, ProofFor, Directions, Climb, DirectionsOf, NodeHash;
    ProofUnfolds(leaves, index, k);
    var left, right := leaves[..k], leaves[k..];
    if index < k {
      BuiltProofProves(left, index);
      ClimbOneMore(leaves[index], ProofFor(left, index), ProofStep(Right, Root(right)));
    } else {
      BuiltProofProves(right, index - k);
      ClimbOneMore(leaves[index], ProofFor(right, index - k), ProofStep(Left, Root(left)));
    }
  }

  lemma SplitDepth(n: nat) returns (d: nat)
    requires n > 1
    ensures Split(n) == Pow2(d) && d + 1 == BitLength(n - 1)
  {
    BitLengthBounds(n - 1);
    d := BitLength(n - 1) - 1;
  }

  /** In a tree whose size is a power of two every path has the full depth. */
  lemma {:induction false} PerfectTreeDepth(d: nat, index: nat)
    requires index < Pow2(d)
    ensures |Directions(Pow2(d), index)| == d
  {
    hide Pow2, Split;
    Pow2Step(0);
    if d > 0 {
      Pow2Step(d - 1);
      SplitIs(Pow2(d), d - 1);
      PerfectTreeDepth(d - 1, if index < Pow2(d - 1) then index else index - Pow2(d - 1));
    }
  }

  /** How a path ends tells the subtree; in the left one its length tells the split. */
  lemma PathEnd(n: nat, index: nat)
    requires n > 1 && index < n
    ensures |Directions(n, index)| > 0
    ensures index < Split(n) ==> Directions(n, index)[|Directions(n, index)| - 1] == Right
    ensures index < Split(n) ==> Directions(n, index) == Directions(Split(n), index) + [Right]
    ensures index < Split(n) ==> |Directions(n, index)| == BitLength(n - 1)
    ensures index >= Split(n) ==> Directions(n, index)[|Directions(n, index)| - 1] == Left
  {
    hide Split, Pow2;
    SplitBounds(n);
    if index < Split(n) {
      var d := SplitDepth(n);
      PerfectTreeDepth(d, index);
    }
  }

  /** Two tree sizes look alike from an index: they split alike at every node on its way to the right. */
  predicate Alike(n: nat, m: nat, index: nat)
    requires index < n && index < m
    decreases n
  {
    if n == 1 || m == 1 then n == m
    else
      SplitBounds(n);
      var k := Split(n);
      k == Split(m) && (index >= k ==> Alike(n - k, m - k, index - k))
  }

  /**
   What the shape check can and cannot tell: a claimed count gives the same directions exactly when
   it looks alike.
   */
  lemma {:induction false} SameShape(n: nat, claimed: nat, index: nat)
    requires index < n && index < claimed
    ensures Directions(claimed, index) == Directions(n, index) <==> Alike(n, claimed, index)
    decreases n
  {
    hide Split, BitLength;
    if n > 1 {
      PathEnd(n, index);
      SplitBounds(n);
    }
    if claimed > 1 {
      PathEnd(claimed, index);
      SplitBounds(claimed);
    }
    if n > 1 && claimed > 1 {
      SameSplit(n, claimed);
      var k := Split(n);
      if index >= k && index >= Split(claimed) {
        SplitsNear(n, claimed, index);
        SameShape(n - k, claimed - k, index - k);
        LeftEnds(n, claimed, index);
      }
    }
  }

  /** An index to the right of both splits is within both trees only if the splits are one. */
  lemma SplitsNear(n: nat, m: nat, index: nat)
    requires n > 1 && m > 1 && Split(n) <= index < n && Split(m) <= index < m
    ensures Split(n) == Split(m)
  {
    SplitBounds(n);
    SplitBounds(m);
    SameSplit(n, m);
    SameSplit(m, n);
  }

  lemma LeftEnds(n: nat, m: nat, index: nat)
    requires n > 1 && m > 1 && Split(n) == Split(m) <= index && index < n && index < m
    ensures Directions(n, index) == Directions(m, index) <==>
            Directions(n - Split(n), index - Split(n)) == Directions(m - Split(n), index - Split(n))
  {
    var k := Split(n);
    var a, b := Directions(n - k, index - k), Directions(m - k, index - k);
    assert Directions(n, index) == a + [Left] && Directions(m, index) == b + [Left];
    assert a == (a + [Left])[..|a|] && b == (b + [Left])[..|b|];
  }

  /** Two tree sizes split alike exactly when they need the same number of levels. */
  lemma SameSplit(n: nat, m: nat)
    requires n > 1 && m > 1
    ensures Split(n) == Split(m) <==> BitLength(n - 1) == BitLength(m - 1)
    ensures Split(n) == Split(m) <==> Split(n) < m <= 2 * Split(n)
  {
    BitLengthBounds(n - 1);
    BitLengthBounds(m - 1);
    var d, e := BitLength(n - 1) - 1, BitLength(m - 1) - 1;
    SplitIs(m, d);
    if d < e {
      Pow2Increases(d, e);
    } else if e < d {
      Pow2Increases(e, d);
    }
  }

  /** Seen from the left part, the sizes alike are those between the split and twice the split. */
  lemma AlikeFromTheLeft(n: nat, claimed: nat, index: nat)
    requires n > 1 && index < Split(n) && index < n && index < claimed
    ensures Alike(n, claimed, index) <==> Split(n) < claimed <= 2 * Split(n)
  {
    if claimed > 1 {
      SameSplit(n, claimed);
    } else {
      SplitBounds(n);
    }
  }

  /** The true proof of a leaf is accepted for exactly the claimed sizes that look alike from it. */
  lemma ClaimedSizes(leaves: seq<Hash>, claimed: nat, index: nat)
    requires index < |leaves|
    ensures Proves(leaves[index], index, claimed, ProofFor(leaves, index), Root(leaves)) <==>
            index < claimed && Alike(|leaves|, claimed, index)
  {
    hide Directions, Alike;
    BuiltProofProves(leaves, index);
    if index < claimed {
      SameShape(|leaves|, claimed, index);
    }
  }

  // --- Soundness and uniqueness ---

  lemma NodeHashInjective(a: Hash, b: Hash, c: Hash, d: Hash)
    requires NodeHash(a, b) == NodeHash(c, d)
    ensures a == c && b == d
  {
    var x, y := Ascii(NODE_DOMAIN) + (a + b), Ascii(NODE_DOMAIN) + (c + d);
    OutputInjective(Blake3(x), Blake3(y), HASH_LEN);
    SplitAt(Ascii(NODE_DOMAIN), a + b, Ascii(NODE_DOMAIN), c + d);
    SplitAt(a, b, c, d);
  }

  /** A leaf hash determines the index and the ciphertext, although the length field is cut to 32 bits. */
  lemma LeafHashInjective(i: nat, c: Bytes, j: nat, e: Bytes)
    requires i < U64_LIMIT && j < U64_LIMIT
    requires LeafHash(i, c) == LeafHash(j, e)
    ensures i == j && c == e
  {
    var x := BigEndian(i, 8) + (BigEndian(|c|, 4) + c);
    var y := BigEndian(j, 8) + (BigEndian(|e|, 4) + e);
    OutputInjective(Blake3(Ascii(LEAF_DOMAIN) + x), Blake3(Ascii(LEAF_DOMAIN) + y), HASH_LEN);
    SplitAt(Ascii(LEAF_DOMAIN), x, Ascii(LEAF_DOMAIN), y);
    SplitAt(BigEndian(i, 8), BigEndian(|c|, 4) + c, BigEndian(j, 8), BigEndian(|e|, 4) + e);
    SplitAt(BigEndian(|c|, 4), c, BigEndian(|e|, 4), e);
    Pow256Values();
    BigEndianInjective(i, j, 8);
  }

  /** Two climbs along the same directions that meet have the same leaf and the same siblings. */
  lemma {:induction false} ClimbInjective(leaf: Hash, p: seq<ProofStep>, leaf': Hash, q: seq<ProofStep>)
    requires DirectionsOf(p) == DirectionsOf(q)
    requires Climb(leaf, p) == Climb(leaf', q)
    ensures leaf == leaf' && p == q
    decreases |p|
  {
    assert |p| == |q|;
    if p != [] {
      var m := |p| - 1;
      assert DirectionsOf(p)[m] == DirectionsOf(q)[m];
      assert DirectionsOf(p[..m]) == DirectionsOf(p)[..m];
      assert DirectionsOf(q[..m]) == DirectionsOf(q)[..m];
      if p[m].direction == Left {
        NodeHashInjective(p[m].hash, Climb(leaf, p[..m]), q[m].hash, Climb(leaf', q[..m]));
      } else {
        NodeHashInjective(Climb(leaf, p[..m]), p[m].hash, Climb(leaf', q[..m]), q[m].hash);
      }
      ClimbInjective(leaf, p[..m], leaf', q[..m]);
      assert p == p[..m] + [p[m]];
      assert q == q[..m] + [q[m]];
    }
  }

  /** Under one root and count, a position has at most one leaf and that leaf at most one proof. */
  lemma ProofsAreUnique(leaf: Hash, p: seq<ProofStep>, leaf': Hash, q: seq<ProofStep>, index: nat, leafCount: nat,
                        root: Hash)
    requires Proves(leaf, index, leafCount, p, root)
    requires Proves(leaf', index, leafCount, q, root)
    ensures leaf == leaf' && p == q
  {
    ClimbInjective(leaf, p, leaf', q);
  }

  /** Against the root of a leaf list, exactly the true leaf verifies, and only with the built proof. */
  lemma VerificationIsExact(leaves: seq<Hash>, index: nat, leaf: Hash, siblings: seq<ProofStep>)
    ensures Proves(leaf, index, |leaves|, siblings, Root(leaves)) <==>
            index < |leaves| && leaf == leaves[index] && siblings == ProofFor(leaves, index)
  {
    if index < |leaves| {
      BuiltProofProves(leaves, index);
      if Proves(leaf, index, |leaves|, siblings, Root(leaves)) {
        ProofsAreUnique(leaf, siblings, leaves[index], ProofFor(leaves, index), index, |leaves|, Root(leaves));
      }
    }
  }

  /** Equal roots of equally many leaves force equal leaves. */
  lemma {:induction false} RootInjective(a: seq<Hash>, b: seq<Hash>)
    requires |a| == |b|
    requires Root(a) == Root(b)
    ensures a == b
    decreases |a|
  {
    if |a| == 1 {
      assert a == [a[0]];
    } else if |a| > 1 {
      SplitBounds(|a|);
      var k := Split(|a|);
      NodeHashInjective(Root(a[..k]), Root(a[k..]), Root(b[..k]), Root(b[k..]));
      RootInjective(a[..k], b[..k]);
      RootInjective(a[k..], b[k..]);
      assert a == a[..k] + a[k..] && b == b[..k] + b[k..];
    }
  }

  /** A leaf list whose entries are leaf hashes, as a sender builds it. */
  ghost predicate AllLeafHashes(leaves: seq<Hash>) {
    forall i :: 0 <= i < |leaves| ==> IsLeafHash(leaves[i])
  }

  ghost predicate IsLeafHash(h: Hash) {
    exists j, c :: h == LeafHash(j, c)
  }

  /** The three hash domains never meet. */
  lemma DomainsDisjoint(j: nat, c: Bytes, l: Hash, r: Hash)
    ensures LeafHash(j, c) != NodeHash(l, r)
    ensures LeafHash(j, c) != EmptyRoot()
    ensures NodeHash(l, r) != EmptyRoot()
  {
    var leaf := Ascii(LEAF_DOMAIN) + (BigEndian(j, 8) + (BigEndian(|c|, 4) + c));
    var node := Ascii(NODE_DOMAIN) + (l + r);
    var none := Ascii(EMPTY_DOMAIN);
    AsciiDiffer(LEAF_DOMAIN, NODE_DOMAIN, 12);
    AsciiDiffer(LEAF_DOMAIN, EMPTY_DOMAIN, 12);
    AsciiDiffer(NODE_DOMAIN, EMPTY_DOMAIN, 12);
    assert leaf[12] == Ascii(LEAF_DOMAIN)[12];
    assert node[12] == Ascii(NODE_DOMAIN)[12];
    if LeafHash(j, c) == NodeHash(l, r) { OutputInjective(Blake3(leaf), Blake3(node), HASH_LEN); }
    if LeafHash(j, c) == EmptyRoot() { OutputInjective(Blake3(leaf), Blake3(none), HASH_LEN); }
    if NodeHash(l, r) == EmptyRoot() { OutputInjective(Blake3(node), Blake3(none), HASH_LEN); }
  }

  /** What kind of hash a root is tells an empty list, a single leaf and a larger tree apart. */
  lemma RootKind(leaves: seq<Hash>)
    requires AllLeafHashes(leaves)
    ensures Root(leaves) == EmptyRoot() <==> |leaves| == 0
    ensures IsLeafHash(Root(leaves)) <==> |leaves| == 1
  {
    if |leaves| <= 1 {
      if IsLeafHash(Root(leaves)) {
        var j, c :| Root(leaves) == LeafHash(j, c);
        DomainsDisjoint(j, c, EmptyRoot(), EmptyRoot());
      }
    } else {
      SplitBounds(|leaves|);
      var k := Split(|leaves|);
      forall j, c ensures Root(leaves) != LeafHash(j, c) {
        DomainsDisjoint(j, c, Root(leaves[..k]), Root(leaves[k..]));
      }
      DomainsDisjoint(0, [], Root(leaves[..k]), Root(leaves[k..]));
    }
  }

  /** Roots over leaf hashes pin the whole list, its length included. */
  lemma {:induction false} RootPinsLeaves(a: seq<Hash>, b: seq<Hash>)
    requires AllLeafHashes(a) && AllLeafHashes(b)
    requires Root(a) == Root(b)
    ensures a == b
    decreases |a|
  {
    RootKind(a);
    RootKind(b);
    if |a| == 1 {
      assert a == [a[0]] && b == [b[0]];
    } else if |a| > 1 {
      SplitBounds(|a|);
      SplitBounds(|b|);
      var k, m := Split(|a|), Split(|b|);
      NodeHashInjective(Root(a[..k]), Root(a[k..]), Root(b[..m]), Root(b[m..]));
      RootPinsLeaves(a[..k], b[..m]);
      RootPinsLeaves(a[k..], b[m..]);
      assert a == a[..k] + a[k..] && b == b[..m] + b[m..];
    }
  }
}
