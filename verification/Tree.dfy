/**
 * The block tree and the abstract ledger node: stored blocks, the active chain, and the
 * effect of `Accept` decided by full validation only. (internal/chain/chain.go)
 */
module Tree {
  import opened Base
  import opened Protocol
  import opened Retarget
  import opened Rules
  import opened Ledger
  import opened Conservation
  import opened Equivalence

  type Blocks = map<Text, Block>

  /** Keys are hashes, the only root is genesis, and every other block has its parent one index lower. */
  ghost predicate TreeOk(c: Crypto, t: Blocks) {
    && Genesis(c).hash in t && t[Genesis(c).hash] == Genesis(c)
    && (forall h {:trigger NodeOk(c, t, h)} :: h in t ==> NodeOk(c, t, h))
  }

  ghost predicate NodeOk(c: Crypto, t: Blocks, h: Text)
    requires h in t
  {
    var b := t[h];
    && b.hash == h && |h| == 64 && b.header.index >= 0
    && (b.header.index == 0 ==> h == Genesis(c).hash)
    && (b.header.index > 0 ==> b.header.previousHash in t && t[b.header.previousHash].header.index == b.header.index - 1)
  }

  /** `buildChain`: from genesis to the block `h`; the walk ends because the index falls. */
  ghost function ChainOf(c: Crypto, t: Blocks, h: Text): seq<Block>
    requires TreeOk(c, t) && h in t
    decreases t[h].header.index
  {
    assert NodeOk(c, t, h);
    if t[h].header.index == 0 then [t[h]] else ChainOf(c, t, t[h].header.previousHash) + [t[h]]
  }

  lemma {:induction false} ChainShape(c: Crypto, t: Blocks, h: Text)
    requires TreeOk(c, t) && h in t
    ensures var ch := ChainOf(c, t, h);
            |ch| == t[h].header.index + 1 && ch[|ch| - 1] == t[h] && ch[0] == Genesis(c)
    decreases t[h].header.index
  {
    assert NodeOk(c, t, h);
    if t[h].header.index > 0 { ChainShape(c, t, t[h].header.previousHash); }
  }

  /** The chain up to `start` is the chain of its last block. */
  lemma StartsStored(c: Crypto, t: Blocks, h: Text, start: nat)
    requires TreeOk(c, t) && h in t && 1 <= start <= |ChainOf(c, t, h)|
    ensures var b := ChainOf(c, t, h)[start - 1]; b.hash in t && ChainOf(c, t, b.hash) == ChainOf(c, t, h)[..start]
  {
    ChainShape(c, t, h);
    ChainPrefix(c, t, h, start - 1);
  }

  /** Every chain element is stored, and the chain up to it is its own chain. */
  lemma {:induction false} ChainPrefix(c: Crypto, t: Blocks, h: Text, i: nat)
    requires TreeOk(c, t) && h in t && i <= t[h].header.index
    ensures |ChainOf(c, t, h)| == t[h].header.index + 1
    ensures var b := ChainOf(c, t, h)[i];
            && b.hash in t && t[b.hash] == b && b.header.index == i
            && ChainOf(c, t, b.hash) == ChainOf(c, t, h)[..i + 1]
    decreases t[h].header.index
  {
    assert NodeOk(c, t, h);
    ChainShape(c, t, h);
    if i < t[h].header.index {
      var p := t[h].header.previousHash;
      ChainShape(c, t, p);
      ChainPrefix(c, t, p, i);
      assert ChainOf(c, t, h)[i] == ChainOf(c, t, p)[i] && ChainOf(c, t, h)[..i + 1] == ChainOf(c, t, p)[..i + 1];
    } else {
      assert ChainOf(c, t, h)[..i + 1] == ChainOf(c, t, h);
    }
  }

  /** Storing more blocks changes no chain. */
  lemma {:induction false} ChainMonotone(c: Crypto, t: Blocks, u: Blocks, h: Text)
    requires TreeOk(c, t) && TreeOk(c, u) && h in t
    requires forall k :: k in t ==> k in u && u[k] == t[k]
    ensures ChainOf(c, u, h) == ChainOf(c, t, h)
    decreases t[h].header.index
  {
    assert NodeOk(c, t, h);
    if t[h].header.index > 0 { ChainMonotone(c, t, u, t[h].header.previousHash); }
  }

  ghost predicate Extends(t: Blocks, u: Blocks) {
    forall k :: k in t ==> k in u && u[k] == t[k]
  }

  lemma InsertKeepsTree(c: Crypto, t: Blocks, b: Block)
    requires TreeOk(c, t) && b.hash !in t && |b.hash| == 64
    requires b.header.previousHash in t && b.header.index == t[b.header.previousHash].header.index + 1
    ensures TreeOk(c, t[b.hash := b]) && Extends(t, t[b.hash := b])
    ensures ChainOf(c, t[b.hash := b], b.hash) == ChainOf(c, t, b.header.previousHash) + [b]
  {
    var u := t[b.hash := b];
    assert NodeOk(c, t, b.header.previousHash);
    forall h | h in u
      ensures NodeOk(c, u, h)
    {
      if h != b.hash { assert NodeOk(c, t, h); }
    }
    ChainMonotone(c, t, u, b.header.previousHash);
  }

  /** Every stored chain has a ledger state, that is (`StoredChainsAreValid`), passes full validation. */
  ghost predicate AllValid(env: Env, t: Blocks)
    requires TreeOk(env.crypto, t)
  {
    forall h {:trigger Sound(env, t, h)} :: h in t ==> Sound(env, t, h)
  }

  ghost predicate Sound(env: Env, t: Blocks, h: Text)
    requires TreeOk(env.crypto, t) && h in t
  {
    LedgerOf(env, ChainOf(env.crypto, t, h)).Some?
  }

  lemma StoredChainIsValid(env: Env, t: Blocks, h: Text)
    requires ValidEnv(env) && TreeOk(env.crypto, t) && AllValid(env, t) && h in t
    ensures ValidChain(env, ChainOf(env.crypto, t, h))
  {
    assert Sound(env, t, h);
    ChainShape(env.crypto, t, h);
    ValidIffLedger(env, ChainOf(env.crypto, t, h));
  }

  lemma GenesisTree(env: Env)
    requires ValidEnv(env)
    ensures var g := Genesis(env.crypto);
            TreeOk(env.crypto, map[g.hash := g]) && AllValid(env, map[g.hash := g])
            && ChainOf(env.crypto, map[g.hash := g], g.hash) == [g]
  {
    var g := Genesis(env.crypto);
    var t: Blocks := map[g.hash := g];
    assert NodeOk(env.crypto, t, g.hash);
  }

  // ---- the abstract node ---------------------------------------------------

  /** The stored blocks and the published active chain. */
  datatype Node = Node(blocks: Blocks, active: seq<Block>)

  ghost predicate ValidNode(env: Env, n: Node) {
    && TreeOk(env.crypto, n.blocks) && AllValid(env, n.blocks)
    && |n.active| > 0
    && TipHash(n) in n.blocks && n.active == ChainOf(env.crypto, n.blocks, TipHash(n))
  }

  function TipHash(n: Node): Text
    requires |n.active| > 0
  {
    n.active[|n.active| - 1].hash
  }

  /** No stored chain has more work than the active one. */
  ghost predicate Heaviest(env: Env, n: Node)
    requires ValidNode(env, n)
  {
    forall h {:trigger Lighter(env, n, h)} :: h in n.blocks ==> Lighter(env, n, h)
  }

  ghost predicate Lighter(env: Env, n: Node, h: Text)
    requires ValidNode(env, n) && h in n.blocks
  {
    ChainWork(ChainOf(env.crypto, n.blocks, h)) <= ChainWork(n.active)
  }

  datatype Reason = Duplicate | GenesisExists | UnknownAncestor | InvalidIngressTime | Invalid | StorageFailed | Fork | Best

  /** What the store accepts: the block record, and the checkpoint record due every 16 blocks. */
  datatype Limits = Limits(blockFits: Block -> bool, checkpointFits: State -> bool)

  predicate CheckpointDue(b: Block) { b.header.index % CHECKPOINT_INTERVAL == 0 }

  /** `validateV3IngressTimestamp`: the wall-clock bound on first arrival. */
  predicate IngressOk(env: Env, now: int, b: Block, prefix: seq<Block>)
    requires |prefix| > 0
  {
    env.version >= 3 ==> TimestampOk(3, b.header.timestamp, prefix) && b.header.timestamp <= now + V3_FUTURE_BOUND
  }

  /** The prefix a block names as its past. */
  ghost function PrefixOf(env: Env, t: Blocks, b: Block): (prefix: seq<Block>)
    requires TreeOk(env.crypto, t) && b.header.previousHash in t
    ensures |prefix| > 0
  {
    ChainShape(env.crypto, t, b.header.previousHash);
    ChainOf(env.crypto, t, b.header.previousHash)
  }

  /** The tests before anything is stored; `Fork` stands for "passed". */
  ghost function Screen(env: Env, t: Blocks, now: int, b: Block): Reason
    requires TreeOk(env.crypto, t)
  {
    if b.hash in t then Duplicate
    else if b.header.index == 0 then GenesisExists
    else if b.header.previousHash !in t then UnknownAncestor
    else if !IngressOk(env, now, b, PrefixOf(env, t, b)) then InvalidIngressTime
    else if !ValidChain(env, PrefixOf(env, t, b) + [b]) then Invalid
    else Fork
  }

  /** `Fork` stands for "to be stored". */
  ghost function Judge(env: Env, lim: Limits, t: Blocks, now: int, b: Block): Reason
    requires TreeOk(env.crypto, t)
  {
    var reason := Screen(env, t, now, b);
    if reason == Fork && !lim.blockFits(b) then StorageFailed else reason
  }

  /** The checkpoint a new tip owes. */
  ghost predicate CheckpointFits(env: Env, lim: Limits, ch: seq<Block>) {
    |ch| > 0 && CheckpointDue(ch[|ch| - 1]) ==> LedgerOf(env, ch).Some? && lim.checkpointFits(LedgerOf(env, ch).value)
  }

  /** Fork choice between the active chain and the chain of the block just stored. */
  ghost function Adopt(env: Env, lim: Limits, n: Node, b: Block, candidate: seq<Block>): (Reason, Node) {
    var stored := n.blocks[b.hash := b];
    if ChainWork(candidate) <= ChainWork(n.active) then (Fork, Node(stored, n.active))
    else if !CheckpointFits(env, lim, candidate) then (StorageFailed, Node(stored, n.active))
    else (Best, Node(stored, candidate))
  }

  /** `Accept` as a function: full validation, fork choice by work, no snapshots and no checkpoints. */
  ghost function Accept(env: Env, lim: Limits, n: Node, now: int, b: Block): (Reason, Node)
    requires TreeOk(env.crypto, n.blocks)
  {
    var reason := Judge(env, lim, n.blocks, now, b);
    if reason != Fork then (reason, n) else Adopt(env, lim, n, b, PrefixOf(env, n.blocks, b) + [b])
  }

  lemma AcceptRefuses(env: Env, lim: Limits, n: Node, now: int, b: Block)
    requires TreeOk(env.crypto, n.blocks) && Screen(env, n.blocks, now, b) != Fork
    ensures Accept(env, lim, n, now, b) == (Screen(env, n.blocks, now, b), n)
  {
  }

  lemma AcceptCannotStore(env: Env, lim: Limits, n: Node, now: int, b: Block)
    requires TreeOk(env.crypto, n.blocks) && Screen(env, n.blocks, now, b) == Fork && !lim.blockFits(b)
    ensures Accept(env, lim, n, now, b) == (StorageFailed, n)
  {
  }

  lemma AcceptAdopts(env: Env, lim: Limits, n: Node, now: int, b: Block)
    requires TreeOk(env.crypto, n.blocks) && Screen(env, n.blocks, now, b) == Fork && lim.blockFits(b)
    ensures b.header.previousHash in n.blocks
    ensures Accept(env, lim, n, now, b) == Adopt(env, lim, n, b, PrefixOf(env, n.blocks, b) + [b])
  {
  }

  function InitialNode(env: Env): Node {
    var g := Genesis(env.crypto);
    Node(map[g.hash := g], [g])
  }

  lemma InitialNodeValid(env: Env)
    requires ValidEnv(env)
    ensures ValidNode(env, InitialNode(env)) && Heaviest(env, InitialNode(env))
  {
    GenesisTree(env);
  }

  // ---- one step ------------------------------------------------------------

  lemma Judged(env: Env, lim: Limits, t: Blocks, now: int, b: Block)
    requires TreeOk(env.crypto, t) && Judge(env, lim, t, now, b) == Fork
    ensures b.hash !in t && b.header.previousHash in t && ValidChain(env, PrefixOf(env, t, b) + [b])
  {
  }

  lemma AcceptedShape(env: Env, b: Block, prefix: seq<Block>)
    requires |prefix| > 0 && ValidChain(env, prefix + [b])
    ensures b.header.index == prefix[|prefix| - 1].header.index + 1 && |b.hash| == 64
  {
    ValidStep(env, prefix, b);
  }

  /** Storing a validated block keeps the tree valid. */
  lemma StoreKeepsValid(env: Env, t: Blocks, b: Block)
    requires ValidEnv(env) && TreeOk(env.crypto, t) && AllValid(env, t)
    requires b.hash !in t && b.header.previousHash in t && ValidChain(env, PrefixOf(env, t, b) + [b])
    ensures TreeOk(env.crypto, t[b.hash := b]) && AllValid(env, t[b.hash := b]) && Extends(t, t[b.hash := b])
    ensures ChainOf(env.crypto, t[b.hash := b], b.hash) == PrefixOf(env, t, b) + [b]
  {
    var c := env.crypto;
    var p := b.header.previousHash;
    var prefix := ChainOf(c, t, p);
    var u := t[b.hash := b];
    ChainShape(c, t, p);
    AcceptedShape(env, b, prefix);
    InsertKeepsTree(c, t, b);
    ValidStep(env, prefix, b);
    IncrementalIsFullValidation(env, prefix, b);
    forall h | h in u
      ensures Sound(env, u, h)
    {
      if h != b.hash {
        assert Sound(env, t, h);
        ChainMonotone(c, t, u, h);
      }
    }
  }

  /** The active chain survives the growth of the tree. */
  lemma GrowKeepsActive(env: Env, n: Node, u: Blocks)
    requires ValidNode(env, n) && TreeOk(env.crypto, u) && AllValid(env, u) && Extends(n.blocks, u)
    ensures ValidNode(env, Node(u, n.active))
  {
    ChainMonotone(env.crypto, n.blocks, u, TipHash(n));
  }

  lemma NewTipIsValid(env: Env, u: Blocks, h: Text)
    requires TreeOk(env.crypto, u) && AllValid(env, u) && h in u
    ensures ValidNode(env, Node(u, ChainOf(env.crypto, u, h)))
  {
    ChainShape(env.crypto, u, h);
    assert NodeOk(env.crypto, u, h);
  }

  /** The active chain changes only to strictly more work, and only on `Best`. */
  ghost predicate Moves(reason: Reason, n: Node, m: Node) {
    if reason == Best then ChainWork(m.active) > ChainWork(n.active) else m.active == n.active
  }

  /** The node an outcome leads to, if it is a valid one that only grew. */
  ghost function Advanced(env: Env, n: Node, outcome: (Reason, Node)): Option<Node> {
    if ValidNode(env, outcome.1) && Extends(n.blocks, outcome.1.blocks) && Moves(outcome.0, n, outcome.1) then Some(outcome.1) else None
  }

  lemma AdoptAdvances(env: Env, lim: Limits, n: Node, b: Block, candidate: seq<Block>)
    requires ValidNode(env, n) && b.hash !in n.blocks
    requires ValidNode(env, Node(n.blocks[b.hash := b], n.active)) && ValidNode(env, Node(n.blocks[b.hash := b], candidate))
    ensures Advanced(env, n, Adopt(env, lim, n, b, candidate)).Some?
  {
  }

  /** The choice left once a block is stored. */
  lemma InsertAdvances(env: Env, lim: Limits, n: Node, now: int, b: Block)
    requires ValidEnv(env) && ValidNode(env, n) && Judge(env, lim, n.blocks, now, b) == Fork
    ensures Advanced(env, n, Accept(env, lim, n, now, b)).Some?
  {
    Judged(env, lim, n.blocks, now, b);
    StoreKeepsValid(env, n.blocks, b);
    GrowKeepsActive(env, n, n.blocks[b.hash := b]);
    NewTipIsValid(env, n.blocks[b.hash := b], b.hash);
    AdoptAdvances(env, lim, n, b, PrefixOf(env, n.blocks, b) + [b]);
  }

  lemma AcceptAdvances(env: Env, lim: Limits, n: Node, now: int, b: Block)
    requires ValidEnv(env) && ValidNode(env, n)
    ensures Advanced(env, n, Accept(env, lim, n, now, b)).Some?
  {
    if Judge(env, lim, n.blocks, now, b) == Fork { InsertAdvances(env, lim, n, now, b); }
  }

  /** Every outcome keeps the node valid; the active chain changes only to strictly more work. */
  lemma AcceptKeepsValid(env: Env, lim: Limits, n: Node, now: int, b: Block)
    requires ValidEnv(env) && ValidNode(env, n)
    ensures var (reason, m) := Accept(env, lim, n, now, b);
            && ValidNode(env, m) && Extends(n.blocks, m.blocks) && Moves(reason, n, m)
  {
    AcceptAdvances(env, lim, n, now, b);
  }

  lemma AdoptKeepsHeaviest(env: Env, lim: Limits, n: Node, b: Block, candidate: seq<Block>, reason: Reason, m: Node)
    requires ValidNode(env, n) && Heaviest(env, n) && b.hash !in n.blocks
    requires (reason, m) == Adopt(env, lim, n, b, candidate) && reason != StorageFailed
    requires ValidNode(env, m) && candidate == ChainOf(env.crypto, m.blocks, b.hash)
    ensures Heaviest(env, m)
  {
    forall h | h in m.blocks
      ensures Lighter(env, m, h)
    {
      if h != b.hash {
        assert Lighter(env, n, h);
        ChainMonotone(env.crypto, n.blocks, m.blocks, h);
      }
    }
  }

  /** Without a storage failure no stored chain outweighs the active one. */
  lemma AcceptKeepsHeaviest(env: Env, lim: Limits, n: Node, now: int, b: Block, reason: Reason, m: Node)
    requires ValidEnv(env) && ValidNode(env, n) && ValidNode(env, m) && Heaviest(env, n)
    requires (reason, m) == Accept(env, lim, n, now, b) && reason != StorageFailed
    ensures Heaviest(env, m)
  {
    if Screen(env, n.blocks, now, b) != Fork {
      AcceptRefuses(env, lim, n, now, b);
    } else if !lim.blockFits(b) {
      AcceptCannotStore(env, lim, n, now, b);
    } else {
      Judged(env, lim, n.blocks, now, b);
      AcceptAdopts(env, lim, n, now, b);
      StoreKeepsValid(env, n.blocks, b);
      AdoptKeepsHeaviest(env, lim, n, b, PrefixOf(env, n.blocks, b) + [b], reason, m);
    }
  }

  // ---- runs ----------------------------------------------------------------

  /** A block handed to `Accept` at a wall-clock time. */
  datatype Arrival = Arrival(now: int, block: Block)

  ghost function Next(env: Env, lim: Limits, n: Node, a: Arrival): (m: Node)
    requires ValidEnv(env) && ValidNode(env, n)
    ensures ValidNode(env, m) && m == Accept(env, lim, n, a.now, a.block).1
  {
    AcceptKeepsValid(env, lim, n, a.now, a.block);
    Accept(env, lim, n, a.now, a.block).1
  }

  /** The nodes passed through, the first being the starting one. */
  ghost function Trace(env: Env, lim: Limits, n: Node, run: seq<Arrival>): (trace: seq<Node>)
    requires ValidEnv(env) && ValidNode(env, n)
    ensures |trace| == |run| + 1
    decreases |run|
  {
    if run == [] then [n] else [n] + Trace(env, lim, Next(env, lim, n, run[0]), run[1..])
  }

  ghost predicate NoStorageFailure(env: Env, lim: Limits, n: Node, run: seq<Arrival>)
    requires ValidEnv(env) && ValidNode(env, n)
    decreases |run|
  {
    run == [] ||
    (Accept(env, lim, n, run[0].now, run[0].block).0 != StorageFailed
     && NoStorageFailure(env, lim, Next(env, lim, n, run[0]), run[1..]))
  }

  /** The node after `i` arrivals, compared with the start. */
  ghost predicate Progress(env: Env, n: Node, m: Node) {
    && Extends(n.blocks, m.blocks)
    && ChainWork(n.active) <= ChainWork(m.active)
    && (m.active != n.active ==> ChainWork(n.active) < ChainWork(m.active))
  }

  /**
   * Over any run: every stored block keeps a fully valid ancestor chain ending at genesis, blocks are
   * never lost, and the active chain moves only to strictly more work.
   */
  lemma {:induction false} RunSafety(env: Env, lim: Limits, n: Node, run: seq<Arrival>, i: nat)
    requires ValidEnv(env) && ValidNode(env, n) && i <= |run|
    ensures ValidNode(env, Trace(env, lim, n, run)[i])
    ensures Progress(env, n, Trace(env, lim, n, run)[i])
    decreases i
  {
    if i > 0 {
      AcceptKeepsValid(env, lim, n, run[0].now, run[0].block);
      var next := Next(env, lim, n, run[0]);
      RunSafety(env, lim, next, run[1..], i - 1);
      assert Trace(env, lim, n, run)[i] == Trace(env, lim, next, run[1..])[i - 1];
    }
  }

  /** Without a storage failure the active chain is a heaviest stored chain at every point of the run. */
  lemma {:induction false} RunKeepsHeaviest(env: Env, lim: Limits, n: Node, run: seq<Arrival>, i: nat)
    requires ValidEnv(env) && ValidNode(env, n) && i <= |run|
    requires Heaviest(env, n) && NoStorageFailure(env, lim, n, run)
    ensures ValidNode(env, Trace(env, lim, n, run)[i]) && Heaviest(env, Trace(env, lim, n, run)[i])
    decreases i
  {
    if i > 0 {
      var next := Next(env, lim, n, run[0]);
      AcceptKeepsHeaviest(env, lim, n, run[0].now, run[0].block, Accept(env, lim, n, run[0].now, run[0].block).0, next);
      RunKeepsHeaviest(env, lim, next, run[1..], i - 1);
      assert Trace(env, lim, n, run)[i] == Trace(env, lim, next, run[1..])[i - 1];
    }
  }
}
