/**
 * What the legacy Merkle root still binds: lists of distinct hashes of one width, unless two hash inputs
 * collide or a leaf is itself the hash of two hashes. (internal/block/merkle.go)
 */
module LegacyBinding {
  import opened Base
  import opened Protocol
  import opened Merkle

  /** A level as the root construction builds it: hashes of 64 characters, none twice. */
  predicate Level(xs: seq<Text>) {
    xs != [] && Distinct(xs) && forall x :: x in xs ==> |x| == 64
  }

  function Up(c: Crypto, xs: seq<Text>): (ys: seq<Text>)
    requires |xs| > 1
    ensures |ys| == (|xs| + 1) / 2
  { Pairs(c, Pad(xs)) }

  /** How many levels are above a list. */
  function Depth(n: nat): nat { if n <= 1 then 0 else 1 + Depth((n + 1) / 2) }

  function PairAt(xs: seq<Text>, i: nat): Bytes
    requires |xs| > 1 && 2 * i + 1 < |Pad(xs)|
  { Pad(xs)[2 * i] + Pad(xs)[2 * i + 1] }

  lemma PairsApart(w: Text, x: Text, y: Text, z: Text)
    requires |w| == |y| && w + x == y + z
    ensures w == y && x == z
  {
    FrontBack(w, x);
    FrontBack(y, z);
  }

  lemma PadWide(xs: seq<Text>, k: nat)
    requires |xs| > 1 && k < |Pad(xs)| && forall x :: x in xs ==> |x| == 64
    ensures |Pad(xs)[k]| == 64
  {
    assert Pad(xs)[k] in xs;
  }

  lemma NodeIs(c: Crypto, xs: seq<Text>, i: nat)
    requires |xs| > 1 && i < |Up(c, xs)|
    ensures 2 * i + 1 < |Pad(xs)| && Up(c, xs)[i] == Sha256Hex(c, PairAt(xs, i))
  {
  }

  /** Equal nodes over different pairs are a collision. */
  lemma NodesClash(c: Crypto, xs: seq<Text>, i: nat, ys: seq<Text>, j: nat)
    requires |xs| > 1 && |ys| > 1 && i < |Up(c, xs)| && j < |Up(c, ys)| && Up(c, xs)[i] == Up(c, ys)[j]
    ensures 2 * i + 1 < |Pad(xs)| && 2 * j + 1 < |Pad(ys)|
    ensures PairAt(xs, i) != PairAt(ys, j) ==> Collides(c, PairAt(xs, i), PairAt(ys, j))
  {
    NodeIs(c, xs, i);
    NodeIs(c, ys, j);
    HexInjective(c.sha(PairAt(xs, i)), c.sha(PairAt(ys, j)));
  }

  /** The next level is again one, or two of its nodes collide. */
  lemma UpIsLevel(c: Crypto, xs: seq<Text>) returns (a: Bytes, b: Bytes)
    requires Level(xs) && |xs| > 1
    ensures Collides(c, a, b) || Level(Up(c, xs))
  {
    a, b := [], [];
    var ys := Up(c, xs);
    assert forall y :: y in ys ==> |y| == 64;
    if !Distinct(ys) {
      var i, j :| 0 <= i < j < |ys| && ys[i] == ys[j];
      NodesClash(c, xs, i, xs, j);
      PairsDiffer(xs, i, j);
      a, b := PairAt(xs, i), PairAt(xs, j);
    }
  }

  lemma PairsDiffer(xs: seq<Text>, i: nat, j: nat)
    requires Level(xs) && |xs| > 1 && i < j && 2 * j + 1 < |Pad(xs)|
    ensures PairAt(xs, i) != PairAt(xs, j)
  {
    PadWide(xs, 2 * i);
    PadWide(xs, 2 * j);
    assert Pad(xs)[2 * i] == xs[2 * i] && Pad(xs)[2 * j] == xs[2 * j];
    if PairAt(xs, i) == PairAt(xs, j) {
      PairsApart(Pad(xs)[2 * i], Pad(xs)[2 * i + 1], Pad(xs)[2 * j], Pad(xs)[2 * j + 1]);
    }
  }

  /** Levels whose parents agree are equal: only a repeated last hash could hide a difference, and nothing repeats. */
  lemma ParentsBind(c: Crypto, xs: seq<Text>, ys: seq<Text>) returns (a: Bytes, b: Bytes)
    requires Level(xs) && Level(ys) && |xs| > 1 && |ys| > 1 && Up(c, xs) == Up(c, ys)
    ensures Collides(c, a, b) || xs == ys
  {
    a, b := [], [];
    assert |Pad(xs)| == 2 * |Up(c, xs)| && |Pad(ys)| == 2 * |Up(c, ys)|;
    if Pad(xs) == Pad(ys) {
      PadBinds(xs, ys);
    } else {
      var k := Difference(Pad(xs), Pad(ys));
      a, b := PairsClash(c, xs, ys, k / 2);
    }
  }

  lemma Difference(s: seq<Text>, t: seq<Text>) returns (k: nat)
    requires |s| == |t| && s != t
    ensures k < |s| && s[k] != t[k]
  {
    k :| 0 <= k < |s| && s[k] != t[k];
  }

  /** Different pairs under one parent collide. */
  lemma PairsClash(c: Crypto, xs: seq<Text>, ys: seq<Text>, i: nat) returns (a: Bytes, b: Bytes)
    requires Level(xs) && Level(ys) && |xs| > 1 && |ys| > 1 && Up(c, xs) == Up(c, ys) && i < |Up(c, xs)|
    requires Pad(xs)[2 * i] != Pad(ys)[2 * i] || Pad(xs)[2 * i + 1] != Pad(ys)[2 * i + 1]
    ensures Collides(c, a, b)
  {
    NodesClash(c, xs, i, ys, i);
    PairsSplit(xs, ys, i);
    a, b := PairAt(xs, i), PairAt(ys, i);
  }

  lemma PairsSplit(xs: seq<Text>, ys: seq<Text>, i: nat)
    requires Level(xs) && Level(ys) && |xs| > 1 && |ys| > 1 && 2 * i + 1 < |Pad(xs)| && 2 * i + 1 < |Pad(ys)|
    ensures PairAt(xs, i) == PairAt(ys, i) ==> Pad(xs)[2 * i] == Pad(ys)[2 * i] && Pad(xs)[2 * i + 1] == Pad(ys)[2 * i + 1]
  {
    PadWide(xs, 2 * i);
    PadWide(ys, 2 * i);
    if PairAt(xs, i) == PairAt(ys, i) {
      PairsApart(Pad(xs)[2 * i], Pad(xs)[2 * i + 1], Pad(ys)[2 * i], Pad(ys)[2 * i + 1]);
    }
  }

  /** A list longer than another with the same padding repeats its last hash. */
  lemma LongerRepeats(xs: seq<Text>, ys: seq<Text>)
    requires 1 < |xs| < |ys| && Pad(xs) == Pad(ys)
    ensures ys[|xs|] == ys[|xs| - 1]
  {
    var p := Pad(xs);
    assert p[|xs|] == xs[|xs| - 1] == p[|xs| - 1];
    assert Pad(ys)[|xs|] == ys[|xs|] && Pad(ys)[|xs| - 1] == ys[|xs| - 1];
  }

  lemma PadBinds(xs: seq<Text>, ys: seq<Text>)
    requires |xs| > 1 && |ys| > 1 && Distinct(xs) && Distinct(ys) && Pad(xs) == Pad(ys)
    ensures xs == ys
  {
    assert Pad(xs)[..|xs|] == xs && Pad(ys)[..|ys|] == ys;
    if |xs| < |ys| { LongerRepeats(xs, ys); }
    if |ys| < |xs| { LongerRepeats(ys, xs); }
  }

  lemma {:induction false} SameDepth(c: Crypto, xs: seq<Text>, ys: seq<Text>) returns (a: Bytes, b: Bytes)
    requires Level(xs) && Level(ys) && Depth(|xs|) == Depth(|ys|) && MerkleRoot(c, xs) == MerkleRoot(c, ys)
    ensures Collides(c, a, b) || xs == ys
    decreases |xs|
  {
    if |xs| == 1 {
      a, b := [], [];
      assert |ys| == 1 && xs[0] == ys[0];
    } else {
      a, b := UpIsLevel(c, xs);
      if !Collides(c, a, b) { a, b := UpIsLevel(c, ys); }
      if !Collides(c, a, b) { a, b := SameDepth(c, Up(c, xs), Up(c, ys)); }
      if !Collides(c, a, b) { a, b := ParentsBind(c, xs, ys); }
    }
  }

  /** A level `k` steps above another, its first hash made from the pair `a`. */
  ghost predicate Above(c: Crypto, xs: seq<Text>, k: nat, ys: seq<Text>, a: Bytes) {
    && Level(ys) && Depth(|ys|) + k == Depth(|xs|) && MerkleRoot(c, ys) == MerkleRoot(c, xs)
    && if k == 0 then ys == xs else |a| == 128 && ys[0] == Sha256Hex(c, a)
  }

  lemma {:induction false} Climb(c: Crypto, xs: seq<Text>, k: nat) returns (ys: seq<Text>, a: Bytes, b: Bytes)
    requires Level(xs) && k <= Depth(|xs|)
    ensures Collides(c, a, b) || Above(c, xs, k, ys, a)
    decreases k
  {
    if k == 0 {
      ys, a, b := xs, [], [];
    } else {
      a, b := UpIsLevel(c, xs);
      ys := xs;
      if !Collides(c, a, b) {
        ys, a, b := Climb(c, Up(c, xs), k - 1);
        if !Collides(c, a, b) {
          if k == 1 { a := FirstPair(c, xs); }
          AboveMore(c, xs, k, ys, a);
        }
      }
    }
  }

  lemma FirstPair(c: Crypto, xs: seq<Text>) returns (a: Bytes)
    requires Level(xs) && |xs| > 1
    ensures |a| == 128 && Up(c, xs)[0] == Sha256Hex(c, a)
  {
    NodeIs(c, xs, 0);
    PadWide(xs, 0);
    PadWide(xs, 1);
    a := PairAt(xs, 0);
  }

  lemma {:induction false} AboveMore(c: Crypto, xs: seq<Text>, k: nat, ys: seq<Text>, a: Bytes)
    requires k > 0 && |xs| > 1 && Level(ys) && Depth(|ys|) + (k - 1) == Depth(|Up(c, xs)|) && MerkleRoot(c, ys) == MerkleRoot(c, Up(c, xs))
    requires |a| == 128 && ys[0] == Sha256Hex(c, a)
    ensures Above(c, xs, k, ys, a)
  {
  }

  /**
   * Two different lists of distinct 64-character hashes with one legacy root: two hash inputs
   * collide, or a leaf of the flatter list is the hash of two hashes.
   */
  lemma LegacyRootBinds(c: Crypto, xs: seq<Text>, ys: seq<Text>) returns (a: Bytes, b: Bytes)
    requires Level(xs) && Level(ys) && xs != ys && MerkleRoot(c, xs) == MerkleRoot(c, ys)
    ensures Collides(c, a, b) || (|a| == 128 && (Sha256Hex(c, a) in xs || Sha256Hex(c, a) in ys))
  {
    if Depth(|xs|) <= Depth(|ys|) {
      a, b := FlatterLeaf(c, xs, ys);
    } else {
      a, b := FlatterLeaf(c, ys, xs);
    }
  }

  lemma {:induction false} FlatterLeaf(c: Crypto, xs: seq<Text>, ys: seq<Text>) returns (a: Bytes, b: Bytes)
    requires Level(xs) && Level(ys) && xs != ys && MerkleRoot(c, xs) == MerkleRoot(c, ys) && Depth(|xs|) <= Depth(|ys|)
    ensures Collides(c, a, b) || (|a| == 128 && Sha256Hex(c, a) in xs)
  {
    var k := Depth(|ys|) - Depth(|xs|);
    var zs;
    zs, a, b := Climb(c, ys, k);
    if !Collides(c, a, b) {
      var d, e := SameDepth(c, xs, zs);
      if Collides(c, d, e) { a, b := d, e; } else { assert xs[0] in xs; }
    }
  }
}
