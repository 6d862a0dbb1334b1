/**
 * Rounds of block synchronisation between a node and an honest, unchanging peer. (internal/p2pnode/network.go, internal/chain/chain.go)
 */
module Sync {
  import opened Base
  import opened Protocol
  import opened Retarget
  import opened Rules
  import opened Ledger
  import opened LedgerOps
  import opened Equivalence
  import opened Tree
  import opened ChainMemory
  import opened ChainNode
  import opened Twins
  import opened Clashes

  const MAX_HEADERS: nat := 2048
  const MAX_LOCATOR: nat := 32
  const MAX_BATCH: nat := 32

  // ---- the messages --------------------------------------------------------

  /** `locator`: the hashes of the last blocks, tip first. */
  function Locator(ch: seq<Block>, limit: nat): seq<Text>
    decreases |ch|
  {
    if ch == [] || limit == 0 then [] else [ch[|ch| - 1].hash] + Locator(ch[..|ch| - 1], limit - 1)
  }

  /** The last position of a hash in a chain. */
  function Position(ch: seq<Block>, h: Text): Option<nat>
    decreases |ch|
  {
    if ch == [] then None else if ch[|ch| - 1].hash == h then Some(|ch| - 1) else Position(ch[..|ch| - 1], h)
  }

  /** Where the first known locator hash sits; genesis when none is known. */
  function MatchPoint(ch: seq<Block>, loc: seq<Text>): nat
    decreases |loc|
  {
    if loc == [] then 0 else match Position(ch, loc[0]) case Some(i) => i case None => MatchPoint(ch, loc[1..])
  }

  lemma {:induction false} PositionIn(ch: seq<Block>, h: Text)
    ensures Position(ch, h).Some? ==> Position(ch, h).value < |ch| && ch[Position(ch, h).value].hash == h
    decreases |ch|
  {
    if ch != [] && ch[|ch| - 1].hash != h { PositionIn(ch[..|ch| - 1], h); }
  }

  /** The active blocks a peer offers after the match point. */
  function Offered(ch: seq<Block>, loc: seq<Text>): seq<Block> {
    var start := MatchPoint(ch, loc) + 1;
    if start >= |ch| then [] else if |ch| - start <= MAX_HEADERS then ch[start..] else ch[start..start + MAX_HEADERS]
  }

  // ---- taking blocks in ----------------------------------------------------

  /** `Accept` returned no error: the client goes on. */
  predicate Continues(r: Reason) { r == Duplicate || r == Fork || r == Best }

  /** The client's node after it was handed blocks until one failed. */
  ghost function Feed(env: Env, lim: Limits, n: Node, now: int, bs: seq<Block>): (m: Node)
    requires ValidEnv(env) && ValidNode(env, n)
    ensures ValidNode(env, m)
    decreases |bs|
  {
    AcceptKeepsValid(env, lim, n, now, if bs == [] then Genesis(env.crypto) else bs[0]);
    if bs == [] then n
    else
      var (reason, next) := Accept(env, lim, n, now, bs[0]);
      if Continues(reason) then Feed(env, lim, next, now, bs[1..]) else next
  }

  // ---- two trees that agree ------------------------------------------------

  /** Under one hash both trees hold the same block up to what no header commits to. */
  ghost predicate Agree(t: Blocks, u: Blocks) {
    forall h :: h in t && h in u ==> Twin(t[h], u[h])
  }

  /** Where both trees hold a block, they hold its whole chain. */
  lemma {:induction false} TwinChain(c: Crypto, t: Blocks, u: Blocks, h: Text)
    requires TreeOk(c, t) && TreeOk(c, u) && Agree(t, u) && h in t && h in u
    ensures Alike(ChainOf(c, t, h), ChainOf(c, u, h))
    decreases t[h].header.index
  {
    assert NodeOk(c, t, h) && NodeOk(c, u, h);
    assert Twin(t[h], u[h]);
    if t[h].header.index > 0 {
      var p := t[h].header.previousHash;
      TwinChain(c, t, u, p);
      TwinsSnoc(ChainOf(c, t, p), ChainOf(c, u, p), t[h], u[h]);
    }
  }

  /** The client holds the first `i` blocks of the peer's chain, or twins of them. */
  ghost predicate HoldsTwin(env: Env, n: Node, ch: seq<Block>, i: nat)
    requires ValidNode(env, n)
  {
    0 < i <= |ch| && ch[i - 1].hash in n.blocks && Alike(ChainOf(env.crypto, n.blocks, ch[i - 1].hash), ch[..i])
  }

  /** Every active block is stored under its hash, at its height. */
  lemma PeerBlock(env: Env, m: Node, i: nat)
    requires ValidEnv(env) && ValidNode(env, m) && i < |m.active|
    ensures m.active[i].hash in m.blocks && m.blocks[m.active[i].hash] == m.active[i] && m.active[i].header.index == i
  {
    ChainShape(env.crypto, m.blocks, TipHash(m));
    ChainPrefix(env.crypto, m.blocks, TipHash(m), i);
  }

  lemma PeerPrefix(env: Env, m: Node, i: nat)
    requires ValidEnv(env) && ValidNode(env, m) && 0 < i <= |m.active|
    ensures var b := m.active[i - 1];
            && b.hash in m.blocks && m.blocks[b.hash] == b && b.header.index == i - 1
            && ChainOf(env.crypto, m.blocks, b.hash) == m.active[..i] && ValidChain(env, m.active[..i])
  {
    ChainShape(env.crypto, m.blocks, TipHash(m));
    ChainPrefix(env.crypto, m.blocks, TipHash(m), i - 1);
    StoredChainIsValid(env, m.blocks, m.active[i - 1].hash);
  }

  /** The match point is held by both. */
  lemma {:induction false} MatchHeld(env: Env, n: Node, m: Node, loc: seq<Text>)
    requires ValidEnv(env) && ValidNode(env, n) && ValidNode(env, m) && Agree(n.blocks, m.blocks)
    requires forall h :: h in loc ==> h in n.blocks
    ensures HoldsTwin(env, n, m.active, MatchPoint(m.active, loc) + 1)
    decreases |loc|
  {
    if loc != [] && Position(m.active, loc[0]).None? {
      MatchHeld(env, n, m, loc[1..]);
    } else {
      if loc != [] { PositionIn(m.active, loc[0]); }
      var i := MatchPoint(m.active, loc);
      PeerPrefix(env, m, i + 1);
      ChainShape(env.crypto, m.blocks, TipHash(m));
      TwinChain(env.crypto, n.blocks, m.blocks, m.active[i].hash);
    }
  }

  lemma {:induction false} LocatorStored(env: Env, n: Node, ch: seq<Block>, limit: nat)
    requires forall b :: b in ch ==> b.hash in n.blocks
    ensures forall h :: h in Locator(ch, limit) ==> h in n.blocks
    decreases |ch|
  {
    if ch != [] && limit > 0 {
      assert ch[|ch| - 1] in ch;
      LocatorStored(env, n, ch[..|ch| - 1], limit - 1);
    }
  }

  /** No block of the chain is too far ahead of the client's clock; versions 1 and 2 do not ask. */
  ghost predicate InTime(env: Env, now: int, ch: seq<Block>) {
    forall i {:trigger ch[i]} :: 0 <= i < |ch| ==> TimelyBlock(env, now, ch[i])
  }

  predicate TimelyBlock(env: Env, now: int, b: Block) { env.version >= 3 ==> b.header.timestamp <= now + V3_FUTURE_BOUND }

  ghost predicate InTimeAt(env: Env, times: seq<int>, ch: seq<Block>) {
    forall now :: now in times ==> InTime(env, now, ch)
  }

  // ---- one block -----------------------------------------------------------

  /** The store takes every block and owed checkpoint of the chain. */
  ghost predicate AllFit(env: Env, lim: Limits, ch: seq<Block>) {
    forall i {:trigger FitsAt(env, lim, ch, i)} :: 0 <= i < |ch| ==> FitsAt(env, lim, ch, i)
  }

  ghost predicate FitsAt(env: Env, lim: Limits, ch: seq<Block>, i: nat)
    requires i < |ch|
  {
    lim.blockFits(ch[i]) && CheckpointFits(env, lim, ch[..i + 1])
  }

  /** A client that holds the first `i` blocks of the peer's active chain and has nothing heavier than its own. */
  ghost function Caught(env: Env, n: Node, m: Node, i: nat): Option<Node> {
    if ValidNode(env, n) && Heaviest(env, n) && Agree(n.blocks, m.blocks) && HoldsTwin(env, n, m.active, i) then Some(n) else None
  }

  /** The next block of the peer's chain is taken in, or was there already. */
  lemma FeedOne(env: Env, lim: Limits, n: Node, m: Node, now: int, i: nat)
    requires ValidEnv(env) && InTime(env, now, m.active) && ValidNode(env, m) && Caught(env, n, m, i).Some?
    requires i < |m.active| && AllFit(env, lim, m.active)
    ensures Continues(Accept(env, lim, n, now, m.active[i]).0)
    ensures Caught(env, Accept(env, lim, n, now, m.active[i]).1, m, i + 1).Some?
  {
    PeerPrefix(env, m, i + 1);
    PeerPrefix(env, m, i);
    if m.active[i].hash in n.blocks {
      TwinChain(env.crypto, n.blocks, m.blocks, m.active[i].hash);
      AcceptRefuses(env, lim, n, now, m.active[i]);
    } else {
      FeedNew(env, lim, n, m, now, i);
    }
  }

  lemma Joins(ch: seq<Block>, i: nat)
    requires i < |ch|
    ensures ch[..i + 1] == ch[..i] + [ch[i]]
  {
  }

  lemma ParentLinked(env: Env, ch: seq<Block>, i: nat)
    requires 0 < i < |ch| && ValidChain(env, ch[..i + 1])
    ensures ch[i].header.previousHash == ch[i - 1].hash && ch[i].header.index == ch[i - 1].header.index + 1
  {
    Joins(ch, i);
    ValidStep(env, ch[..i], ch[i]);
  }

  /** The client's own chain below the peer's block number `i`. */
  ghost function Below(env: Env, n: Node, m: Node, i: nat): seq<Block>
    requires ValidNode(env, n) && 0 < i < |m.active| && m.active[i - 1].hash in n.blocks
  { ChainOf(env.crypto, n.blocks, m.active[i - 1].hash) }

  lemma NewExtends(env: Env, n: Node, m: Node, i: nat)
    requires ValidEnv(env) && ValidNode(env, n) && HoldsTwin(env, n, m.active, i) && i < |m.active|
    requires ValidChain(env, m.active[..i + 1])
    ensures ValidChain(env, Below(env, n, m, i) + [m.active[i]])
    ensures Alike(Below(env, n, m, i) + [m.active[i]], m.active[..i + 1])
    ensures LedgerOf(env, Below(env, n, m, i) + [m.active[i]]) == LedgerOf(env, m.active[..i + 1])
  {
    Joins(m.active, i);
    StoredChainIsValid(env, n.blocks, m.active[i - 1].hash);
    TwinExtends(env, Below(env, n, m, i), m.active[..i], m.active[i]);
    TwinsSnoc(Below(env, n, m, i), m.active[..i], m.active[i], m.active[i]);
  }

  lemma NewPasses(env: Env, n: Node, m: Node, now: int, i: nat)
    requires ValidEnv(env) && InTime(env, now, m.active) && ValidNode(env, n) && HoldsTwin(env, n, m.active, i) && i < |m.active|
    requires m.active[i].hash !in n.blocks && m.active[i].header.index == i && ValidChain(env, m.active[..i + 1])
    ensures Screen(env, n.blocks, now, m.active[i]) == Fork
    ensures m.active[i].header.previousHash in n.blocks && PrefixOf(env, n.blocks, m.active[i]) == Below(env, n, m, i)
  {
    ParentLinked(env, m.active, i);
    NewExtends(env, n, m, i);
    ScreenPasses(env, n, now, m.active[i], m.active[i - 1].hash);
  }

  lemma ScreenPasses(env: Env, n: Node, now: int, b: Block, parent: Text)
    requires TimelyBlock(env, now, b) && ValidNode(env, n) && parent in n.blocks && b.header.previousHash == parent
    requires ValidEnv(env) && b.hash !in n.blocks && b.header.index != 0 && ValidChain(env, ChainOf(env.crypto, n.blocks, parent) + [b])
    ensures Screen(env, n.blocks, now, b) == Fork && PrefixOf(env, n.blocks, b) == ChainOf(env.crypto, n.blocks, parent)
  {
    ChainShape(env.crypto, n.blocks, parent);
    TimestampHolds(env, ChainOf(env.crypto, n.blocks, parent), b);
  }

  /** A valid block's time passes the test made on arrival. */
  lemma TimestampHolds(env: Env, prefix: seq<Block>, b: Block)
    requires ValidEnv(env) && |prefix| > 0 && ValidChain(env, prefix + [b])
    ensures env.version >= 3 ==> TimestampOk(3, b.header.timestamp, prefix)
  {
    ValidStep(env, prefix, b);
  }

  lemma FeedNew(env: Env, lim: Limits, n: Node, m: Node, now: int, i: nat)
    requires ValidEnv(env) && InTime(env, now, m.active) && ValidNode(env, m) && Caught(env, n, m, i).Some?
    requires i < |m.active| && AllFit(env, lim, m.active)
    requires m.active[i].hash !in n.blocks && m.active[i].hash in m.blocks && m.blocks[m.active[i].hash] == m.active[i]
    requires m.active[i].header.index == i && ValidChain(env, m.active[..i + 1])
    ensures Continues(Accept(env, lim, n, now, m.active[i]).0)
    ensures Caught(env, Accept(env, lim, n, now, m.active[i]).1, m, i + 1).Some?
  {
    var b := m.active[i];
    NewIsStored(env, lim, n, m, now, i);
    var (reason, next) := Accept(env, lim, n, now, b);
    AcceptKeepsValid(env, lim, n, now, b);
    AcceptKeepsHeaviest(env, lim, n, now, b, reason, next);
    StoredIsCaught(env, n, m, next, i);
  }

  lemma NewIsStored(env: Env, lim: Limits, n: Node, m: Node, now: int, i: nat)
    requires ValidEnv(env) && InTime(env, now, m.active) && ValidNode(env, n) && HoldsTwin(env, n, m.active, i)
    requires i < |m.active| && AllFit(env, lim, m.active)
    requires m.active[i].hash !in n.blocks && m.active[i].header.index == i && ValidChain(env, m.active[..i + 1])
    ensures Continues(Accept(env, lim, n, now, m.active[i]).0)
    ensures Accept(env, lim, n, now, m.active[i]) == Adopt(env, lim, n, m.active[i], Below(env, n, m, i) + [m.active[i]])
    ensures Accept(env, lim, n, now, m.active[i]).1.blocks == n.blocks[m.active[i].hash := m.active[i]]
    ensures TreeOk(env.crypto, n.blocks[m.active[i].hash := m.active[i]])
    ensures Alike(ChainOf(env.crypto, n.blocks[m.active[i].hash := m.active[i]], m.active[i].hash), m.active[..i + 1])
  {
    NewExtends(env, n, m, i);
    NewPasses(env, n, m, now, i);
    FitsOne(env, lim, m.active, i, Below(env, n, m, i));
    AcceptAdopts(env, lim, n, now, m.active[i]);
    StoreKeepsValid(env, n.blocks, m.active[i]);
    AdoptedBlocks(env, lim, n, m.active[i], Below(env, n, m, i) + [m.active[i]]);
  }

  /** What fits on the peer's chain fits on its twin. */
  lemma FitsOne(env: Env, lim: Limits, ch: seq<Block>, i: nat, p: seq<Block>)
    requires AllFit(env, lim, ch) && i < |ch| && LedgerOf(env, p + [ch[i]]) == LedgerOf(env, ch[..i + 1])
    ensures lim.blockFits(ch[i]) && CheckpointFits(env, lim, p + [ch[i]])
  {
    assert FitsAt(env, lim, ch, i);
    LastOf(p, ch[i]);
    LastOf(ch[..i], ch[i]);
    Joins(ch, i);
  }

  lemma StoredIsCaught(env: Env, n: Node, m: Node, next: Node, i: nat)
    requires Agree(n.blocks, m.blocks) && i < |m.active| && ValidNode(env, next) && Heaviest(env, next)
    requires m.active[i].hash in m.blocks && m.blocks[m.active[i].hash] == m.active[i]
    requires next.blocks == n.blocks[m.active[i].hash := m.active[i]]
    requires Alike(ChainOf(env.crypto, next.blocks, m.active[i].hash), m.active[..i + 1])
    ensures Caught(env, next, m, i + 1).Some?
  {
  }

  lemma AdoptedBlocks(env: Env, lim: Limits, n: Node, b: Block, candidate: seq<Block>)
    requires CheckpointFits(env, lim, candidate)
    ensures Continues(Adopt(env, lim, n, b, candidate).0) && Adopt(env, lim, n, b, candidate).1.blocks == n.blocks[b.hash := b]
  {
  }

  // ---- the round -----------------------------------------------------------

  /** Fed the rest of the peer's chain, the client ends up holding all of it. */
  lemma {:induction false} FeedRest(env: Env, lim: Limits, n: Node, m: Node, now: int, i: nat)
    requires ValidEnv(env) && InTime(env, now, m.active) && ValidNode(env, m) && ValidNode(env, n) && Caught(env, n, m, i).Some?
    requires i <= |m.active| && AllFit(env, lim, m.active)
    ensures Caught(env, Feed(env, lim, n, now, m.active[i..]), m, |m.active|).Some?
    decreases |m.active| - i
  {
    if i < |m.active| {
      FeedOne(env, lim, n, m, now, i);
      AcceptKeepsValid(env, lim, n, now, m.active[i]);
      FeedRest(env, lim, Accept(env, lim, n, now, m.active[i]).1, m, now, i + 1);
      FeedStep(env, lim, n, now, m.active, i);
    }
  }

  lemma FeedStep(env: Env, lim: Limits, n: Node, now: int, ch: seq<Block>, i: nat)
    requires ValidEnv(env) && ValidNode(env, n) && i < |ch| && Continues(Accept(env, lim, n, now, ch[i]).0)
    requires ValidNode(env, Accept(env, lim, n, now, ch[i]).1)
    ensures Feed(env, lim, n, now, ch[i..]) == Feed(env, lim, Accept(env, lim, n, now, ch[i]).1, now, ch[i + 1..])
  {
    assert ch[i..][0] == ch[i] && ch[i..][1..] == ch[i + 1..];
  }

  lemma HeldIsOutweighed(env: Env, n: Node, m: Node)
    requires ValidEnv(env) && ValidNode(env, m) && Caught(env, n, m, |m.active|).Some?
    ensures ChainWork(m.active) <= ChainWork(n.active)
  {
    var h := m.active[|m.active| - 1].hash;
    assert Lighter(env, n, h);
    WholeSlice(m.active);
    WorkTwins(ChainOf(env.crypto, n.blocks, h), m.active);
  }

  /** Valid nodes agree, or two hash inputs clash. */
  lemma AgreeOrClash(env: Env, n: Node, m: Node) returns (e: Option<Clash>)
    requires ValidEnv(env) && ValidNode(env, n) && ValidNode(env, m)
    ensures if e.Some? then Real(env.crypto, e.value) else Agree(n.blocks, m.blocks)
  {
    e := None;
    if !Agree(n.blocks, m.blocks) {
      var h :| h in n.blocks && h in m.blocks && !Twin(n.blocks[h], m.blocks[h]);
      var c := StoredTwins(env, n.blocks, m.blocks, h);
      e := Some(c);
    }
  }

  lemma StartCaught(env: Env, n: Node, m: Node)
    requires ValidEnv(env) && ValidNode(env, n) && ValidNode(env, m) && Heaviest(env, n) && Agree(n.blocks, m.blocks)
    ensures Caught(env, n, m, MatchPoint(m.active, Locator(n.active, MAX_LOCATOR)) + 1).Some?
  {
    ChainShape(env.crypto, n.blocks, TipHash(n));
    StoredElements(env.crypto, n.blocks, TipHash(n));
    LocatorStored(env, n, n.active, MAX_LOCATOR);
    MatchHeld(env, n, m, Locator(n.active, MAX_LOCATOR));
  }

  lemma OfferedAll(ch: seq<Block>, loc: seq<Text>)
    requires MatchPoint(ch, loc) < |ch| <= MatchPoint(ch, loc) + 1 + MAX_HEADERS
    ensures Offered(ch, loc) == ch[MatchPoint(ch, loc) + 1..]
  {
  }

  lemma AgreeingRound(env: Env, lim: Limits, n: Node, m: Node, now: int, start: nat)
    requires ValidEnv(env) && InTime(env, now, m.active) && ValidNode(env, n) && ValidNode(env, m) && Caught(env, n, m, start).Some?
    requires AllFit(env, lim, m.active) && start <= |m.active|
    ensures var after := Feed(env, lim, n, now, m.active[start..]);
            Heaviest(env, after) && ChainWork(m.active) <= ChainWork(after.active)
  {
    FeedRest(env, lim, n, m, now, start);
    HeldIsOutweighed(env, Feed(env, lim, n, now, m.active[start..]), m);
  }

  /**
   * After one round with a peer whose active chain has at most 2048 blocks past the match point, the
   * client's work is at least the peer's, unless two distinct hash inputs with one hash are at hand.
   */
  lemma RoundCatchesUp(env: Env, lim: Limits, n: Node, m: Node, now: int) returns (e: Option<Clash>)
    requires ValidEnv(env) && InTime(env, now, m.active) && ValidNode(env, n) && ValidNode(env, m) && Heaviest(env, n)
    requires AllFit(env, lim, m.active)
    requires |m.active| <= MatchPoint(m.active, Locator(n.active, MAX_LOCATOR)) + 1 + MAX_HEADERS
    ensures e.Some? ==> Real(env.crypto, e.value)
    ensures e.None? ==>
              var after := Feed(env, lim, n, now, Offered(m.active, Locator(n.active, MAX_LOCATOR)));
              Heaviest(env, after) && ChainWork(m.active) <= ChainWork(after.active)
  {
    e := AgreeOrClash(env, n, m);
    if e.None? {
      StartCaught(env, n, m);
      OfferedAll(m.active, Locator(n.active, MAX_LOCATOR));
      AgreeingRound(env, lim, n, m, now, MatchPoint(m.active, Locator(n.active, MAX_LOCATOR)) + 1);
    }
  }

  // ---- many rounds ---------------------------------------------------------

  /** A client whose active chain is the first `k` blocks of the peer's, up to twins. */
  ghost function Trailing(env: Env, n: Node, m: Node, k: nat): Option<Node> {
    if ValidNode(env, n) && Heaviest(env, n) && Agree(n.blocks, m.blocks) && 0 < k <= |m.active| && Alike(n.active, m.active[..k])
    then Some(n) else None
  }

  lemma TrailingIsCaught(env: Env, n: Node, m: Node, k: nat)
    requires ValidEnv(env) && ValidNode(env, m) && Trailing(env, n, m, k).Some?
    ensures Caught(env, n, m, k).Some? && TipHash(n) == m.active[k - 1].hash
  {
    ChainShape(env.crypto, n.blocks, TipHash(n));
    assert |n.active| == k;
    assert Twin(n.active[k - 1], m.active[..k][k - 1]);
  }

  /** A block more of the peer's chain is never there already: it would outweigh the active chain. */
  lemma {:induction false} NextIsNew(env: Env, n: Node, m: Node, k: nat)
    requires ValidEnv(env) && ValidNode(env, m) && Trailing(env, n, m, k).Some? && k < |m.active|
    ensures m.active[k].hash !in n.blocks
  {
    PeerPrefix(env, m, k + 1);
    if m.active[k].hash in n.blocks {
      var h := m.active[k].hash;
      TwinChain(env.crypto, n.blocks, m.blocks, h);
      assert Lighter(env, n, h);
      WorkTwins(ChainOf(env.crypto, n.blocks, h), m.active[..k + 1]);
      WorkTwins(n.active, m.active[..k]);
      WorkGrows(m.active, k);
    }
  }

  lemma WorkGrows(ch: seq<Block>, k: nat)
    requires k < |ch|
    ensures ChainWork(ch[..k + 1]) > ChainWork(ch[..k])
  {
    Extend(ch, k);
  }

  /** Each of them becomes the new tip. */
  lemma {:induction false} TakeOnTop(env: Env, lim: Limits, n: Node, m: Node, now: int, k: nat)
    requires ValidEnv(env) && InTime(env, now, m.active) && ValidNode(env, m) && Trailing(env, n, m, k).Some?
    requires k < |m.active| && AllFit(env, lim, m.active)
    ensures Accept(env, lim, n, now, m.active[k]).0 == Best
    ensures Trailing(env, Accept(env, lim, n, now, m.active[k]).1, m, k + 1).Some?
  {
    TrailingIsCaught(env, n, m, k);
    NextIsNew(env, n, m, k);
    PeerPrefix(env, m, k + 1);
    FeedNew(env, lim, n, m, now, k);
    NewIsStored(env, lim, n, m, now, k);
    AdoptsTop(env, lim, n, m, k);
  }

  lemma {:induction false} AdoptsTop(env: Env, lim: Limits, n: Node, m: Node, k: nat)
    requires ValidEnv(env) && ValidNode(env, m) && Trailing(env, n, m, k).Some?
    requires k < |m.active| && AllFit(env, lim, m.active)
    requires m.active[k].hash !in n.blocks && m.active[k].header.index == k && ValidChain(env, m.active[..k + 1])
    ensures m.active[k - 1].hash in n.blocks && Below(env, n, m, k) == n.active
    ensures Adopt(env, lim, n, m.active[k], n.active + [m.active[k]]) ==
            (Best, Node(n.blocks[m.active[k].hash := m.active[k]], n.active + [m.active[k]]))
    ensures Alike(n.active + [m.active[k]], m.active[..k + 1])
  {
    TrailingIsCaught(env, n, m, k);
    NewExtends(env, n, m, k);
    FitsOne(env, lim, m.active, k, n.active);
    LastOf(n.active, m.active[k]);
  }

  /** Where feeding leads a valid node. */
  ghost function Fed(env: Env, lim: Limits, n: Node, now: int, bs: seq<Block>): Option<Node> {
    if ValidEnv(env) && ValidNode(env, n) then Some(Feed(env, lim, n, now, bs)) else None
  }

  lemma FedHead(env: Env, lim: Limits, n: Node, now: int, bs: seq<Block>)
    requires ValidEnv(env) && ValidNode(env, n) && bs != [] && Continues(Accept(env, lim, n, now, bs[0]).0)
    ensures Fed(env, lim, n, now, bs) == Fed(env, lim, Accept(env, lim, n, now, bs[0]).1, now, bs[1..])
  {
    AcceptKeepsValid(env, lim, n, now, bs[0]);
  }

  ghost function TrailingAt(env: Env, n: Option<Node>, m: Node, k: nat): Option<Node> {
    if n.Some? then Trailing(env, n.value, m, k) else None
  }

  lemma {:induction false} FeedAdvances(env: Env, lim: Limits, n: Node, m: Node, now: int, k: nat, j: nat)
    requires ValidEnv(env) && InTime(env, now, m.active) && ValidNode(env, m) && Trailing(env, n, m, k).Some?
    requires k <= j <= |m.active| && AllFit(env, lim, m.active)
    ensures TrailingAt(env, Fed(env, lim, n, now, m.active[k..j]), m, j).Some?
    decreases j - k
  {
    if k < j {
      TakeOnTop(env, lim, n, m, now, k);
      SliceHead(m.active, k, j);
      FedHead(env, lim, n, now, m.active[k..j]);
      FeedAdvances(env, lim, Accept(env, lim, n, now, m.active[k]).1, m, now, k + 1, j);
    }
  }

  lemma SliceHead<T>(s: seq<T>, k: nat, j: nat)
    requires k < j <= |s|
    ensures s[k..j] != [] && s[k..j][0] == s[k] && s[k..j][1..] == s[k + 1..j]
  {
  }

  /** The locator of such a client is recognised at its tip. */
  lemma {:induction false} TipMatches(env: Env, n: Node, m: Node, k: nat)
    requires ValidEnv(env) && ValidNode(env, m) && Trailing(env, n, m, k).Some?
    ensures MatchPoint(m.active, Locator(n.active, MAX_LOCATOR)) == k - 1
  {
    TrailingIsCaught(env, n, m, k);
    WholeSlice(m.active);
    LastPosition(env, m, k - 1, |m.active|);
    LocatorHead(n.active, Locator(n.active, MAX_LOCATOR));
  }

  lemma LocatorHead(ch: seq<Block>, loc: seq<Text>)
    requires ch != [] && loc == Locator(ch, MAX_LOCATOR)
    ensures loc != [] && loc[0] == ch[|ch| - 1].hash
  {
  }

  /** No hash occurs twice in an active chain. */
  lemma {:induction false} LastPosition(env: Env, m: Node, k: nat, j: nat)
    requires ValidEnv(env) && ValidNode(env, m) && k < j <= |m.active|
    ensures Position(m.active[..j], m.active[k].hash) == Some(k)
    decreases j
  {
    Extend(m.active, j - 1);
    if k < j - 1 {
      HashesApart(env, m, k, j - 1);
      LastPosition(env, m, k, j - 1);
    }
  }

  lemma HashesApart(env: Env, m: Node, k: nat, j: nat)
    requires ValidEnv(env) && ValidNode(env, m) && k < j < |m.active|
    ensures m.active[k].hash != m.active[j].hash
  {
    PeerBlock(env, m, k);
    PeerBlock(env, m, j);
  }

  /** Rounds at the given times, each with a locator made anew. */
  ghost function Rounds(env: Env, lim: Limits, n: Node, m: Node, times: seq<int>): (after: Node)
    requires ValidEnv(env) && ValidNode(env, n)
    ensures ValidNode(env, after)
    decreases |times|
  {
    if times == [] then n
    else Rounds(env, lim, Feed(env, lim, n, times[0], Offered(m.active, Locator(n.active, MAX_LOCATOR))), m, times[1..])
  }

  /** How far a number of rounds brings a client. */
  function Reached(k: nat, rounds: nat, total: nat): nat {
    if k + rounds * MAX_HEADERS <= total then k + rounds * MAX_HEADERS else total
  }

  lemma OfferedSlice(ch: seq<Block>, loc: seq<Text>, k: nat)
    requires 0 < k <= |ch| && MatchPoint(ch, loc) == k - 1
    ensures Offered(ch, loc) == ch[k..Reached(k, 1, |ch|)]
  {
  }

  lemma {:induction false} RoundsAdvance(env: Env, lim: Limits, n: Node, m: Node, times: seq<int>, k: nat)
    requires ValidEnv(env) && InTimeAt(env, times, m.active) && ValidNode(env, m) && ValidNode(env, n) && Trailing(env, n, m, k).Some?
    requires AllFit(env, lim, m.active)
    ensures Trailing(env, Rounds(env, lim, n, m, times), m, Reached(k, |times|, |m.active|)).Some?
    decreases |times|
  {
    if times != [] {
      var j := Reached(k, 1, |m.active|);
      TipMatches(env, n, m, k);
      OfferedSlice(m.active, Locator(n.active, MAX_LOCATOR), k);
      FeedAdvances(env, lim, n, m, times[0], k, j);
      RoundsAdvance(env, lim, Feed(env, lim, n, times[0], m.active[k..j]), m, times[1..], j);
      ReachedStep(k, |times|, |m.active|);
    }
  }

  lemma ReachedStep(k: nat, rounds: nat, total: nat)
    requires rounds > 0 && k <= total
    ensures Reached(Reached(k, 1, total), rounds - 1, total) == Reached(k, rounds, total)
  {
  }

  /**
   * A client whose active chain is the first `k` blocks of an honest peer's follows it, 2048 blocks a
   * round, however many rounds are missing.
   */
  lemma SyncFollows(env: Env, lim: Limits, n: Node, m: Node, times: seq<int>, k: nat) returns (e: Option<Clash>)
    requires ValidEnv(env) && InTimeAt(env, times, m.active) && ValidNode(env, n) && ValidNode(env, m) && Heaviest(env, n)
    requires AllFit(env, lim, m.active) && 0 < k <= |m.active| && Alike(n.active, m.active[..k])
    ensures e.Some? ==> Real(env.crypto, e.value)
    ensures e.None? ==>
              var after := Rounds(env, lim, n, m, times);
              Heaviest(env, after) && Alike(after.active, m.active[..Reached(k, |times|, |m.active|)])
  {
    e := AgreeOrClash(env, n, m);
    if e.None? { RoundsAdvance(env, lim, n, m, times, k); }
  }
}
