/** The round of module Sync as the node runs it. (internal/p2pnode/network.go, internal/chain/chain.go) */
module SyncOps {
  import opened Base
  import opened Protocol
  import opened Rules
  import opened Ledger
  import opened LedgerOps
  import opened Equivalence
  import opened ChainHeaders
  import opened Tree
  import opened ChainMemory
  import opened ChainNode
  import opened Sync
  import Journal

  /** `locator`. */
  method ComputeLocator(ch: seq<Block>) returns (loc: seq<Text>)
    ensures loc == Locator(ch, MAX_LOCATOR)
  {
    loc := [];
    var i := |ch|;
    assert ch[..i] == ch;
    while i > 0 && |loc| < MAX_LOCATOR
      invariant 0 <= i <= |ch| && |loc| <= MAX_LOCATOR
      invariant Locator(ch, MAX_LOCATOR) == loc + Locator(ch[..i], MAX_LOCATOR - |loc|)
    {
      assert ch[..i][..i - 1] == ch[..i - 1];
      i := i - 1;
      Associative(loc, [ch[i].hash], Locator(ch[..i], MAX_LOCATOR - |loc| - 1));
      loc := loc + [ch[i].hash];
    }
  }

  method FindHash(ch: seq<Block>, h: Text) returns (at: Option<nat>)
    ensures at == Position(ch, h)
  {
    var i := |ch|;
    assert ch[..i] == ch;
    while i > 0
      invariant 0 <= i <= |ch| && Position(ch, h) == Position(ch[..i], h)
    {
      assert ch[..i][..i - 1] == ch[..i - 1];
      i := i - 1;
      if ch[i].hash == h { return Some(i); }
    }
    at := None;
  }

  /** `HeadersFromLocator` with no stop hash. */
  method HeadersFromLocator(active: seq<Block>, loc: seq<Text>) returns (out: seq<Block>)
    ensures out == Offered(active, loc)
  {
    var idx := 0;
    var i := 0;
    var found := false;
    assert loc[0..] == loc;
    while i < |loc| && !found
      invariant 0 <= i <= |loc|
      invariant if found then idx == MatchPoint(active, loc) else idx == 0 && MatchPoint(active, loc) == MatchPoint(active, loc[i..])
    {
      var at := FindHash(active, loc[i]);
      assert loc[i..][1..] == loc[i + 1..];
      if at.Some? { idx, found := at.value, true; }
      i := i + 1;
    }
    var start := idx + 1;
    out := [];
    var j := start;
    while j < |active| && |out| < MAX_HEADERS
      invariant start <= j && |out| == j - start <= MAX_HEADERS
      invariant j <= |active| || out == []
      invariant j <= |active| ==> out == active[start..j]
    {
      out := out + [active[j]];
      j := j + 1;
    }
  }

  function Lookup(t: Blocks, hashes: seq<Text>): seq<Block>
    decreases |hashes|
  {
    if hashes == [] then [] else Lookup(t, hashes[..|hashes| - 1]) + (if hashes[|hashes| - 1] in t then [t[hashes[|hashes| - 1]]] else [])
  }

  /** `BlocksByHashes`. */
  method BlocksByHashes(t: Blocks, hashes: seq<Text>) returns (out: seq<Block>)
    ensures out == Lookup(t, hashes)
  {
    out := [];
    for i := 0 to |hashes|
      invariant out == Lookup(t, hashes[..i])
    {
      assert hashes[..i + 1][..i] == hashes[..i];
      if hashes[i] in t { out := out + [t[hashes[i]]]; }
    }
    assert hashes[..|hashes|] == hashes;
  }

  function Hashed(c: Crypto, bs: seq<Block>): seq<Text> { seq(|bs|, i requires 0 <= i < |bs| => c.headerHash(bs[i].header)) }

  ghost predicate Known(c: Crypto, t: Blocks, bs: seq<Block>) {
    forall i :: 0 <= i < |bs| ==> c.headerHash(bs[i].header) in t && t[c.headerHash(bs[i].header)] == bs[i]
  }

  lemma {:induction false} LookupKnown(c: Crypto, t: Blocks, bs: seq<Block>)
    requires Known(c, t, bs)
    ensures Lookup(t, Hashed(c, bs)) == bs
    decreases |bs|
  {
    if bs != [] {
      var init := bs[..|bs| - 1];
      assert forall i :: 0 <= i < |init| ==> init[i] == bs[i];
      LookupKnown(c, t, init);
      assert Hashed(c, bs)[..|bs| - 1] == Hashed(c, init);
      assert bs == init + [bs[|bs| - 1]];
    }
  }

  /** An honest peer finds every block it offers under the hash of its header. */
  lemma OfferedKnown(env: Env, m: Node, loc: seq<Text>)
    requires ValidEnv(env) && ValidNode(env, m)
    ensures Known(env.crypto, m.blocks, Offered(m.active, loc))
  {
    var bs := Offered(m.active, loc);
    forall i | 0 <= i < |bs|
      ensures env.crypto.headerHash(bs[i].header) in m.blocks && m.blocks[env.crypto.headerHash(bs[i].header)] == bs[i]
    {
      var k := MatchPoint(m.active, loc) + 1 + i;
      assert bs[i] == m.active[k];
      PeerPrefix(env, m, k + 1);
      PeerPrefix(env, m, |m.active|);
      assert m.active[..|m.active|] == m.active;
      BlockFacts(env, m.active, k);
    }
  }

  // ---- the client ----------------------------------------------------------

  predicate AllNormal(bs: seq<Block>)
    decreases |bs|
  {
    bs == [] || (AllNormal(bs[..|bs| - 1]) && Journal.Normal(bs[|bs| - 1]))
  }

  lemma {:induction false} NormalSlice(bs: seq<Block>, lo: nat, hi: nat)
    requires AllNormal(bs) && lo <= hi <= |bs|
    ensures AllNormal(bs[lo..hi])
    decreases |bs|, hi
  {
    if hi < |bs| {
      NormalSlice(bs[..|bs| - 1], lo, hi);
      assert bs[..|bs| - 1][lo..hi] == bs[lo..hi];
    } else if lo < hi {
      NormalSlice(bs, lo, hi - 1);
      assert bs[lo..hi][..hi - lo - 1] == bs[lo..hi - 1];
    }
  }

  lemma {:induction false} NormalAt(bs: seq<Block>, k: nat)
    requires AllNormal(bs) && k < |bs|
    ensures Journal.Normal(bs[k])
    decreases |bs|
  {
    if k < |bs| - 1 { NormalAt(bs[..|bs| - 1], k); }
  }

  lemma NormalOffer(ch: seq<Block>, loc: seq<Text>)
    requires AllNormal(ch)
    ensures AllNormal(Offered(ch, loc))
  {
    var start := MatchPoint(ch, loc) + 1;
    if start < |ch| { WholeTail(ch, start); }
    if start < |ch| { NormalSlice(ch, start, if |ch| - start <= MAX_HEADERS then |ch| else start + MAX_HEADERS); }
  }

  method TakeOne(client: Chain, b: Block, now: int, ghost n: Node) returns (going: bool)
    requires client.Abs() == Some(n) && Journal.Normal(b)
    modifies client, client.store
    ensures ValidEnv(client.env) && ValidNode(client.env, n)
    ensures client.Abs() == Some(Accept(client.env, client.Lim(), n, now, b).1)
    ensures going == Continues(Accept(client.env, client.Lim(), n, now, b).0)
  {
    client.Reads();
    var accepted, reason := client.Accept(now, b);
    going := accepted || reason == Duplicate;
  }

  lemma FeedStops(env: Env, lim: Limits, n: Node, now: int, ch: seq<Block>, i: nat)
    requires ValidEnv(env) && ValidNode(env, n) && i < |ch| && !Continues(Accept(env, lim, n, now, ch[i]).0)
    ensures Feed(env, lim, n, now, ch[i..]) == Accept(env, lim, n, now, ch[i]).1
  {
    assert ch[i..][0] == ch[i];
  }

  /** Where feeding from position `i` on leads to, or where feeding has stopped. */
  ghost function Ahead(env: Env, lim: Limits, n: Node, now: int, all: seq<Block>, i: nat, going: bool): Option<Node> {
    if ValidEnv(env) && ValidNode(env, n) && i <= |all| then Some(if going then Feed(env, lim, n, now, all[i..]) else n) else None
  }

  /** The same for the node behind a chain object. */
  ghost function Feeding(client: Chain, m: Node, now: int, all: seq<Block>, i: nat, going: bool): Option<Node>
    reads client, client.store
  {
    if client.Abs() == Some(m) then Ahead(client.env, client.Lim(), m, now, all, i, going) else None
  }

  /** Hands a batch, the positions `lo` to `hi` of what is offered, to `Accept`, up to the first error. */
  method TakeBatch(client: Chain, batch: seq<Block>, now: int, ghost all: seq<Block>, ghost lo: nat, ghost hi: nat, ghost n: Node)
    returns (going: bool, ghost m: Node)
    requires Feeding(client, n, now, all, lo, true).Some? && lo <= hi <= |all| && batch == all[lo..hi] && AllNormal(all)
    modifies client, client.store
    ensures Feeding(client, m, now, all, hi, going) == old(Feeding(client, n, now, all, lo, true))
  {
    going, m := true, n;
    var i := 0;
    ghost var end := Feeding(client, n, now, all, lo, true);
    while going && i < |batch|
      invariant 0 <= i <= |batch| && Feeding(client, m, now, all, lo + i, going) == end
    {
      NormalAt(all, lo + i);
      going, m := TakeNext(client, batch[i], now, all, lo + i, m);
      i := i + 1;
    }
    BatchEnds(client, m, now, all, lo + i, hi, going);
  }

  lemma BatchEnds(client: Chain, n: Node, now: int, all: seq<Block>, i: nat, j: nat, going: bool)
    requires i <= |all| && j <= |all| && (going ==> i == j)
    ensures Feeding(client, n, now, all, i, going) == Feeding(client, n, now, all, j, going)
  {
  }

  method TakeNext(client: Chain, b: Block, now: int, ghost all: seq<Block>, ghost k: nat, ghost n: Node) returns (going: bool, ghost m: Node)
    requires Feeding(client, n, now, all, k, true).Some? && k < |all| && b == all[k] && Journal.Normal(b)
    modifies client, client.store
    ensures Feeding(client, m, now, all, k + 1, going) == old(Feeding(client, n, now, all, k, true))
  {
    going := TakeOne(client, b, now, n);
    m := Accept(client.env, client.Lim(), n, now, b).1;
    AheadStep(client.env, client.Lim(), n, now, all, k);
  }

  lemma AheadStep(env: Env, lim: Limits, n: Node, now: int, all: seq<Block>, k: nat)
    requires ValidEnv(env) && ValidNode(env, n) && k < |all|
    ensures var (r, m) := Accept(env, lim, n, now, all[k]);
            Ahead(env, lim, m, now, all, k + 1, Continues(r)) == Ahead(env, lim, n, now, all, k, true)
  {
    AcceptKeepsValid(env, lim, n, now, all[k]);
    if Continues(Accept(env, lim, n, now, all[k]).0) {
      FeedStep(env, lim, n, now, all, k);
    } else {
      FeedStops(env, lim, n, now, all, k);
    }
  }

  /** One round of `syncPeer`: locator, headers, then the blocks in batches of 32. */
  method SyncRound(client: Chain, peer: Node, now: int, ghost n: Node)
    requires client.Abs() == Some(n) && ValidEnv(client.env) && ValidNode(client.env, peer) && AllNormal(peer.active)
    modifies client, client.store
    ensures ValidEnv(client.env) && ValidNode(client.env, n)
    ensures client.Abs() == Some(Feed(client.env, client.Lim(), n, now, Offered(peer.active, Locator(n.active, MAX_LOCATOR))))
  {
    client.Reads();
    var loc := ComputeLocator(client.active);
    var offered := HeadersFromLocator(peer.active, loc);
    OfferedKnown(client.env, peer, loc);
    NormalOffer(peer.active, loc);
    TakeAll(client, peer.blocks, Hashed(client.env.crypto, offered), now, offered, n);
  }

  /** Fetches the offered blocks in batches until one is refused. */
  method TakeAll(client: Chain, t: Blocks, hashes: seq<Text>, now: int, ghost offered: seq<Block>, ghost n: Node)
    requires Feeding(client, n, now, offered, 0, true).Some?
    requires Known(client.env.crypto, t, offered) && hashes == Hashed(client.env.crypto, offered) && AllNormal(offered)
    modifies client, client.store
    ensures ValidEnv(client.env) && ValidNode(client.env, n)
    ensures client.Abs() == Some(Feed(client.env, client.Lim(), n, now, offered))
  {
    var i, going := 0, true;
    ghost var m := n;
    ghost var end := Feeding(client, n, now, offered, 0, true);
    while going && i < |hashes|
      invariant 0 <= i <= |hashes| == |offered| && Feeding(client, m, now, offered, i, going) == end
    {
      var next := if i + MAX_BATCH > |hashes| then |hashes| else i + MAX_BATCH;
      var batch := BlocksByHashes(t, hashes[i..next]);
      BatchIsSlice(client.env.crypto, t, offered, i, next);
      going, m := TakeBatch(client, batch, now, offered, i, next, m);
      i := next;
    }
    FullyFed(client.env, client.Lim(), n, m, now, offered, i, going);
  }

  lemma FullyFed(env: Env, lim: Limits, n: Node, m: Node, now: int, all: seq<Block>, i: nat, going: bool)
    requires ValidEnv(env) && ValidNode(env, n) && i <= |all| && (going ==> i == |all|)
    requires Ahead(env, lim, m, now, all, i, going) == Ahead(env, lim, n, now, all, 0, true)
    ensures Feed(env, lim, n, now, all) == m
  {
    assert all[0..] == all;
  }

  lemma BatchIsSlice(c: Crypto, t: Blocks, bs: seq<Block>, lo: nat, hi: nat)
    requires Known(c, t, bs) && lo <= hi <= |bs|
    ensures Lookup(t, Hashed(c, bs)[lo..hi]) == bs[lo..hi]
  {
    assert Hashed(c, bs)[lo..hi] == Hashed(c, bs[lo..hi]);
    LookupKnown(c, t, bs[lo..hi]);
  }
}
