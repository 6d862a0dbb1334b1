/** Where a synchronisation round sets in: at the fork of the two chains, if the locator reaches that far. (internal/p2pnode/network.go, internal/chain/chain.go) */
module ForkPoint {
  import opened Base
  import opened Protocol
  import opened Ledger
  import opened Equivalence
  import opened Tree
  import opened Twins
  import opened Clashes
  import opened Sync
  import opened Candidates

  /** A locator is the last hashes of a chain, newest first. */
  lemma {:induction false} LocatorAt(ch: seq<Block>, limit: nat)
    ensures |Locator(ch, limit)| == if |ch| < limit then |ch| else limit
    ensures forall i :: 0 <= i < |Locator(ch, limit)| ==> Locator(ch, limit)[i] == ch[|ch| - 1 - i].hash
    decreases |ch|
  {
    if ch != [] && limit > 0 { LocatorAt(ch[..|ch| - 1], limit - 1); }
  }

  /** What both active chains hold, they hold at one height, with everything below it. */
  lemma SharedBelow(env: Env, n: Node, m: Node, i: nat, j: nat)
    requires ValidEnv(env) && ValidNode(env, n) && ValidNode(env, m) && Agree(n.blocks, m.blocks)
    requires i < |n.active| && j < |m.active| && n.active[i].hash == m.active[j].hash
    ensures i == j && forall k :: 0 <= k <= i ==> n.active[k].hash == m.active[k].hash
  {
    var h := n.active[i].hash;
    PeerPrefix(env, n, i + 1);
    PeerPrefix(env, m, j + 1);
    assert Twin(n.blocks[h], m.blocks[h]);
    TwinChain(env.crypto, n.blocks, m.blocks, h);
    var p, q := n.active[..i + 1], m.active[..j + 1];
    forall k | 0 <= k <= i
      ensures n.active[k].hash == m.active[k].hash
    {
      assert Twin(p[k], q[k]);
    }
  }

  lemma SameGenesis(env: Env, n: Node, m: Node)
    requires ValidEnv(env) && ValidNode(env, n) && ValidNode(env, m)
    ensures n.active[0].hash == m.active[0].hash == Genesis(env.crypto).hash
  {
    PeerPrefix(env, n, 1);
    PeerPrefix(env, m, 1);
    FirstIsGenesis(env, n.active[..1]);
    FirstIsGenesis(env, m.active[..1]);
  }

  lemma FirstIsGenesis(env: Env, ch: seq<Block>)
    requires |ch| == 1 && ValidChain(env, ch)
    ensures ch[0].hash == Genesis(env.crypto).hash
  {
  }

  lemma {:induction false} NotThere(ch: seq<Block>, h: Text)
    requires forall i :: 0 <= i < |ch| ==> ch[i].hash != h
    ensures Position(ch, h).None?
    decreases |ch|
  {
    if ch != [] { NotThere(ch[..|ch| - 1], h); }
  }

  lemma NewestOnly(env: Env, n: Node, m: Node, c: nat, t: nat)
    requires ValidEnv(env) && ValidNode(env, n) && ValidNode(env, m) && Agree(n.blocks, m.blocks)
    requires PartAt(n.active, m.active, c) && 0 < c <= t <= |n.active|
    ensures Position(m.active, n.active[t - 1].hash) == if t == c then Some(c - 1) else None
  {
    if t == c {
      WholeSlice(m.active);
      LastPosition(env, m, c - 1, |m.active|);
    } else {
      forall j | 0 <= j < |m.active|
        ensures m.active[j].hash != n.active[t - 1].hash
      {
        if m.active[j].hash == n.active[t - 1].hash { SharedBelow(env, n, m, t - 1, j); }
      }
      NotThere(m.active, n.active[t - 1].hash);
    }
  }

  predicate FoundAt(a: seq<Block>, b: seq<Block>, c: nat, t: nat)
    requires t < |a|
  {
    Position(b, a[t].hash) == if t == c then Some(c) else None
  }

  /** Of the blocks from `c` up only the one at `c` is on the other chain, at the same height. */
  ghost predicate NewestAt(a: seq<Block>, b: seq<Block>, c: nat) {
    forall t {:trigger FoundAt(a, b, c, t)} :: c <= t < |a| ==> FoundAt(a, b, c, t)
  }

  lemma SharedIsNewest(env: Env, n: Node, m: Node, c: nat)
    requires ValidEnv(env) && ValidNode(env, n) && ValidNode(env, m) && Agree(n.blocks, m.blocks)
    requires PartAt(n.active, m.active, c) && c > 0
    ensures NewestAt(n.active, m.active, c - 1)
  {
    var k: nat := c - 1;
    forall t | k <= t < |n.active|
      ensures FoundAt(n.active, m.active, k, t)
    {
      NewestOnly(env, n, m, c, t + 1);
    }
  }

  lemma {:induction false} MatchScan(a: seq<Block>, b: seq<Block>, c: nat, t: nat, limit: nat)
    requires NewestAt(a, b, c) && c < t <= |a|
    ensures MatchPoint(b, Locator(a[..t], limit)) == if t - c <= limit then c else 0
    decreases t
  {
    if limit > 0 {
      assert FoundAt(a, b, c, t - 1);
      LocatorSplits(a, t, limit);
      if t > c + 1 { MatchScan(a, b, c, t - 1, limit - 1); }
    }
  }

  lemma LocatorSplits(ch: seq<Block>, t: nat, limit: nat)
    requires 0 < t <= |ch| && limit > 0
    ensures var loc := Locator(ch[..t], limit); loc != [] && loc[0] == ch[t - 1].hash && loc[1..] == Locator(ch[..t - 1], limit - 1)
  {
    Extend(ch, t - 1);
  }

  /**
   * A round sets in above the last block both chains share if at most 31 blocks of the client's lie
   * above it, and above genesis otherwise, or two distinct hash inputs with one digest are at hand.
   */
  lemma MatchIsForkPoint(env: Env, n: Node, m: Node, c: nat) returns (e: Option<Clash>)
    requires ValidEnv(env) && ValidNode(env, n) && ValidNode(env, m) && PartAt(n.active, m.active, c)
    ensures e.Some? ==> Real(env.crypto, e.value)
    ensures e.None? ==>
              var from := if |n.active| - c < 32 then c else 1;
              && 0 < c && MatchPoint(m.active, Locator(n.active, 32)) == from - 1
              && Offered(m.active, Locator(n.active, 32)) == m.active[from..if |m.active| - from < 2048 then |m.active| else from + 2048]
  {
    e := AgreeOrClash(env, n, m);
    if e.None? {
      SameGenesis(env, n, m);
      assert c > 0;
      WholeSlice(n.active);
      SharedIsNewest(env, n, m, c);
      MatchScan(n.active, m.active, c - 1, |n.active|, 32);
      OfferedFrom(m.active, Locator(n.active, 32), if |n.active| - c < 32 then c else 1);
    }
  }

  lemma OfferedFrom(ch: seq<Block>, loc: seq<Text>, from: nat)
    requires MatchPoint(ch, loc) == from - 1 && from <= |ch|
    ensures Offered(ch, loc) == ch[from..if |ch| - from < 2048 then |ch| else from + 2048]
  {
  }
}
