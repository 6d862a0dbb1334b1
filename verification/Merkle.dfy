/** The legacy Merkle root used by consensus, and the amended version 3 construction. */
module Merkle {
  import opened Base
  import opened Protocol

  // ---- legacy construction (internal/block/merkle.go) ----------------------

  function Pad(xs: seq<Text>): (p: seq<Text>)
    requires |xs| > 1
    ensures |p| % 2 == 0 && |xs| <= |p| <= |xs| + 1
  {
    if |xs| % 2 == 1 then xs + [xs[|xs| - 1]] else xs
  }

  function Pairs(c: Crypto, xs: seq<Text>): seq<Text>
    requires |xs| % 2 == 0
  {
    seq(|xs| / 2, i requires 0 <= i < |xs| / 2 => Sha256Hex(c, xs[2 * i] + xs[2 * i + 1]))
  }

  function MerkleRoot(c: Crypto, xs: seq<Text>): Text
    decreases |xs|
  {
    if |xs| == 0 then Sha256Hex(c, []) else if |xs| == 1 then xs[0] else MerkleRoot(c, Pairs(c, Pad(xs)))
  }

  /** Hexadecimal leaves give a hexadecimal root. */
  lemma {:induction false} RootIsHex(c: Crypto, xs: seq<Text>)
    requires |xs| == 1 ==> AllHex(xs[0])
    ensures AllHex(MerkleRoot(c, xs))
    decreases |xs|
  {
    if |xs| > 1 { RootIsHex(c, Pairs(c, Pad(xs))); }
  }

  /** The inner loop: hashes the neighbours of one padded level. */
  method HashPairs(c: Crypto, hashes: seq<Text>) returns (next: seq<Text>)
    requires |hashes| % 2 == 0
    ensures next == Pairs(c, hashes)
  {
    next := [];
    for i := 0 to |hashes| / 2
      invariant |next| == i && forall k :: 0 <= k < i ==> next[k] == Pairs(c, hashes)[k]
    {
      next := next + [Sha256Hex(c, hashes[2 * i] + hashes[2 * i + 1])];
    }
  }

  method ComputeMerkleRoot(c: Crypto, txHashes: seq<Text>) returns (root: Text)
    ensures root == MerkleRoot(c, txHashes)
  {
    if |txHashes| == 0 { return Sha256Hex(c, []); }
    var hashes := txHashes;
    while |hashes| > 1
      invariant |hashes| > 0 && MerkleRoot(c, hashes) == MerkleRoot(c, txHashes)
      decreases |hashes|
    {
      var padded := hashes;
      if |hashes| % 2 == 1 { padded := padded + [hashes[|hashes| - 1]]; }
      assert padded == Pad(hashes);
      hashes := HashPairs(c, padded);
    }
    root := hashes[0];
  }

  /** The duplicate-last rule: an odd list and the list with its last hash repeated share their root. */
  lemma LegacyRootIgnoresRepeatedLast(c: Crypto, xs: seq<Text>)
    requires |xs| > 1 && |xs| % 2 == 1
    ensures xs != xs + [xs[|xs| - 1]]
    ensures MerkleRoot(c, xs) == MerkleRoot(c, xs + [xs[|xs| - 1]])
  {
    assert Pad(xs + [xs[|xs| - 1]]) == Pad(xs);
  }

  // ---- version 3 construction (internal/block/merkle_v3.go) ----------------

  const LEAF_TAG: Bytes := Ascii("SYJ-MERKLE-V3-LEAF") + [0]
  const NODE_TAG: Bytes := Ascii("SYJ-MERKLE-V3-NODE") + [0]
  const ROOT_TAG: Bytes := Ascii("SYJ-MERKLE-V3-ROOT") + [0]
  const EMPTY_TAG: Bytes := Ascii("SYJ-MERKLE-V3-EMPTY") + [0]

  /** `uint64(len(value))` big-endian. */
  function Length(n: nat): (b: Bytes)
    ensures |b| == 8
  {
    PutU64(n % TWO64)
  }

  function LeafInput(v: Text): Bytes { LEAF_TAG + (Length(|v|) + v) }
  function NodeInput(l: Digest, r: Digest): Bytes { NODE_TAG + (l + r) }
  function RootInput(count: nat, tree: Digest): Bytes { ROOT_TAG + (Length(count) + tree) }

  function Leaves(c: Crypto, xs: seq<Text>): seq<Digest> {
    seq<Digest>(|xs|, i requires 0 <= i < |xs| => c.sha(LeafInput(xs[i])))
  }

  function Right(level: seq<Digest>, i: nat): Digest
    requires 2 * i < |level|
  {
    if 2 * i + 1 < |level| then level[2 * i + 1] else level[2 * i]
  }

  function Parents(c: Crypto, level: seq<Digest>): seq<Digest> {
    seq<Digest>((|level| + 1) / 2, i requires 0 <= i < (|level| + 1) / 2 => c.sha(NodeInput(level[2 * i], Right(level, i))))
  }

  function Tree(c: Crypto, level: seq<Digest>): Digest
    requires |level| > 0
    decreases |level|
  {
    if |level| == 1 then level[0] else Tree(c, Parents(c, level))
  }

  function TreeOf(c: Crypto, xs: seq<Text>): Digest {
    if |xs| == 0 then c.sha(EMPTY_TAG) else Tree(c, Leaves(c, xs))
  }

  function MerkleRootV3(c: Crypto, xs: seq<Text>): Hex64 {
    Hex(c.sha(RootInput(|xs|, TreeOf(c, xs))))
  }

  method HashLeaves(c: Crypto, txHashes: seq<Text>) returns (level: seq<Digest>)
    ensures level == Leaves(c, txHashes)
  {
    level := [];
    for i := 0 to |txHashes|
      invariant |level| == i && forall k :: 0 <= k < i ==> level[k] == Leaves(c, txHashes)[k]
    {
      level := level + [c.sha(LeafInput(txHashes[i]))];
    }
  }

  method HashLevel(c: Crypto, level: seq<Digest>) returns (next: seq<Digest>)
    ensures next == Parents(c, level)
  {
    next := [];
    for i := 0 to (|level| + 1) / 2
      invariant |next| == i && forall k :: 0 <= k < i ==> next[k] == Parents(c, level)[k]
    {
      var right := level[2 * i];
      if 2 * i + 1 < |level| { right := level[2 * i + 1]; }
      assert Parents(c, level)[i] == c.sha(NodeInput(level[2 * i], Right(level, i)));
      next := next + [c.sha(NodeInput(level[2 * i], right))];
    }
  }

  method ComputeMerkleRootV3(c: Crypto, txHashes: seq<Text>) returns (root: Text)
    ensures root == MerkleRootV3(c, txHashes)
  {
    var tree := c.sha(EMPTY_TAG);
    if |txHashes| > 0 {
      var level := HashLeaves(c, txHashes);
      while |level| > 1
        invariant |level| > 0 && Tree(c, level) == TreeOf(c, txHashes)
        decreases |level|
      {
        level := HashLevel(c, level);
      }
      tree := level[0];
    }
    root := Hex(c.sha(RootInput(|txHashes|, tree)));
  }

  // ---- the version 3 root binds the list -----------------------------------

  lemma TaggedPairs(tag: Bytes, a: Bytes, b: Bytes, a': Bytes, b': Bytes)
    requires tag + (a + b) == tag + (a' + b') && |a| == |a'|
    ensures a == a' && b == b'
  {
    assert (tag + (a + b))[|tag|..] == a + b && (tag + (a' + b'))[|tag|..] == a' + b';
    assert (a + b)[..|a|] == a && (a' + b')[..|a|] == a';
    assert (a + b)[|a|..] == b && (a' + b')[|a|..] == b';
  }

  lemma LengthInjective(m: nat, n: nat)
    requires m < TWO64 && n < TWO64 && Length(m) == Length(n)
    ensures m == n
  {
    assert FromBigEndian(Length(m)) == m && FromBigEndian(Length(n)) == n;
  }

  /** Distinct hash inputs with one digest. */
  predicate Collides(c: Crypto, a: Bytes, b: Bytes) {
    a != b && c.sha(a) == c.sha(b)
  }

  /** Descends through all levels of two equally wide trees with one root to a pair of colliding inputs. */
  lemma {:induction false} DescendToCollision(c: Crypto, xs: seq<Digest>, ys: seq<Digest>) returns (a: Bytes, b: Bytes)
    requires |xs| == |ys| > 0 && xs != ys && Tree(c, xs) == Tree(c, ys)
    ensures Collides(c, a, b)
    decreases |xs|
  {
    if Parents(c, xs) != Parents(c, ys) {
      a, b := DescendToCollision(c, Parents(c, xs), Parents(c, ys));
    } else {
      var k :| 0 <= k < |xs| && xs[k] != ys[k];
      var i := k / 2;
      assert Parents(c, xs)[i] == Parents(c, ys)[i];
      a, b := NodeInput(xs[2 * i], Right(xs, i)), NodeInput(ys[2 * i], Right(ys, i));
      if a == b {
        TaggedPairs(NODE_TAG, xs[2 * i], Right(xs, i), ys[2 * i], Right(ys, i));
        assert false;
      }
    }
  }

  /** Equal lengths: the trees differ only through a collision among the nodes or the leaves. */
  lemma SameLengthCollision(c: Crypto, xs: seq<Text>, ys: seq<Text>) returns (a: Bytes, b: Bytes)
    requires |xs| == |ys| && xs != ys && TreeOf(c, xs) == TreeOf(c, ys)
    requires forall v :: v in xs || v in ys ==> |v| < TWO64
    ensures Collides(c, a, b)
  {
    if Leaves(c, xs) != Leaves(c, ys) {
      a, b := DescendToCollision(c, Leaves(c, xs), Leaves(c, ys));
    } else {
      var k :| 0 <= k < |xs| && xs[k] != ys[k];
      assert Leaves(c, xs)[k] == Leaves(c, ys)[k];
      a, b := LeafInput(xs[k]), LeafInput(ys[k]);
      if a == b {
        TaggedPairs(LEAF_TAG, Length(|xs[k]|), xs[k], Length(|ys[k]|), ys[k]);
        assert false;
      }
    }
  }

  /** Two different lists with one version 3 root exhibit two distinct hash inputs with one digest. */
  lemma RootV3Binds(c: Crypto, xs: seq<Text>, ys: seq<Text>) returns (a: Bytes, b: Bytes)
    requires xs != ys && MerkleRootV3(c, xs) == MerkleRootV3(c, ys)
    requires |xs| < TWO64 && |ys| < TWO64
    requires forall v :: v in xs || v in ys ==> |v| < TWO64
    ensures Collides(c, a, b)
  {
    var s, t := TreeOf(c, xs), TreeOf(c, ys);
    a, b := RootInput(|xs|, s), RootInput(|ys|, t);
    HexInjective(c.sha(a), c.sha(b));
    if a == b {
      TaggedPairs(ROOT_TAG, Length(|xs|), s, Length(|ys|), t);
      LengthInjective(|xs|, |ys|);
      a, b := SameLengthCollision(c, xs, ys);
    }
  }
}
