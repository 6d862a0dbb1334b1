/** Submitting to and mining on a version 2 node. (internal/node/node.go, internal/node/api.go) */
module NodeOps {
  import opened Base
  import opened Protocol
  import opened Retarget
  import opened Rules
  import opened Merkle
  import opened Ledger
  import opened LedgerOps
  import opened Tree
  import opened ChainMemory
  import opened ChainNode
  import opened Mempool
  import opened Selection
  import opened Template
  import opened LocalNode
  import Journal
  import Persist
  import Utf8

  /** No nonce of the search meets the difficulty. */
  ghost predicate SearchFails(env: Env, tip: Block, receiver: Text, reward: u64, difficulty: int, chosen: seq<Tx>) {
    forall nonce: u64 {:trigger Assemble(env, tip, receiver, reward, difficulty, chosen, nonce)} ::
      nonce < MAX64 ==> !MeetsDifficulty(Assemble(env, tip, receiver, reward, difficulty, chosen, nonce).hash, difficulty)
  }

  /** Why nothing was mined: no reward is left, the receiver is no address, or no nonce does. */
  ghost predicate CannotMine(env: Env, ch: seq<Block>, receiver: Text, listing: seq<Tx>) {
    |ch| > 0 && LedgerOf(env, ch).Some? &&
    var s := LedgerOf(env, ch).value;
    SnapshotReward(env, s).None? || !ValidAddress(receiver)
    || SearchFails(env, ch[|ch| - 1], receiver, SnapshotReward(env, s).value, RequiredDifficulty(ch), Select(s.accounts, listing))
  }

  /** The proof-of-work loop: the first nonce that meets the difficulty. */
  method Search(env: Env, tip: Block, receiver: Text, reward: u64, difficulty: int, chosen: seq<Tx>) returns (b: Option<Block>)
    ensures b.Some? ==> b.value == Assemble(env, tip, receiver, reward, difficulty, chosen, b.value.header.nonce)
    ensures b.Some? ==> MeetsDifficulty(b.value.hash, difficulty)
    ensures b.None? ==> SearchFails(env, tip, receiver, reward, difficulty, chosen)
  {
    var candidate := Assemble(env, tip, receiver, reward, difficulty, chosen, 0);
    while candidate.header.nonce < MAX64
      invariant candidate == Assemble(env, tip, receiver, reward, difficulty, chosen, candidate.header.nonce)
      invariant forall nonce: u64 {:trigger Assemble(env, tip, receiver, reward, difficulty, chosen, nonce)} ::
                  nonce < candidate.header.nonce ==> !MeetsDifficulty(Assemble(env, tip, receiver, reward, difficulty, chosen, nonce).hash, difficulty)
      decreases MAX64 - candidate.header.nonce
    {
      if MeetsDifficulty(candidate.hash, difficulty) { return Some(candidate); }
      candidate := Reassemble(env, tip, receiver, reward, difficulty, chosen, candidate);
    }
    b := None;
  }

  /** `Recompute` after the nonce was raised. */
  method Reassemble(env: Env, tip: Block, receiver: Text, reward: u64, difficulty: int, chosen: seq<Tx>, b: Block) returns (next: Block)
    requires b.header.nonce < MAX64 && b == Assemble(env, tip, receiver, reward, difficulty, chosen, b.header.nonce)
    ensures next == Assemble(env, tip, receiver, reward, difficulty, chosen, b.header.nonce + 1)
  {
    var root := ComputeMerkleRoot(env.crypto, Ids(b.txs));
    var header := b.header.(nonce := b.header.nonce + 1, merkleRoot := root);
    next := Block(header, b.txs, env.crypto.headerHash(header));
  }

  /** The selection, reading next nonces off the published map. */
  method Choose(nonces: map<Text, u64>, txs: seq<Tx>, ghost balances: map<Text, u64>) returns (chosen: seq<Tx>)
    ensures chosen == Select(View(balances, nonces), txs)
  {
    forall k
      ensures Nonce(View(balances, nonces), k) == At(nonces, k)
    {
      ViewReads(balances, nonces, k);
    }
    chosen := SelectV2(nonces, txs, View(balances, nonces));
  }

  /** The tests of a submission against what the chain reports of its sender. */
  method SubmitPending(pool: V2Pool, env: Env, confirmed: set<Text>, balance: u64, next: u64, tx: Tx, ghost n: Node) returns (ok: bool)
    requires pool.Valid() && LedgerOf(env, n.active).Some? && confirmed == ConfirmedIds(n.active)
    requires Balance(LedgerOf(env, n.active).value.accounts, tx.sender) == balance
    requires Nonce(LedgerOf(env, n.active).value.accounts, tx.sender) == next
    modifies pool
    ensures pool.Valid()
    ensures ok == Admits(env, n, old(pool.byID), pool.max, tx)
    ensures pool.byID == if ok then old(pool.byID)[tx.txId := tx] else old(pool.byID)
  {
    if !ValidV2(env.crypto, env.networkId, tx) { return false; }
    if tx.txId in confirmed { return false; }
    var expected := pool.ExpectedNonce(tx.sender, next);
    if expected.None? {
      NoFreeNonce(pool.byID, tx.sender, next);
      return false;
    }
    OnlyFreeNonce(pool.byID, tx.sender, next, expected.value);
    ghost var before := pool.byID;
    ok := pool.Add(env.crypto, env.networkId, tx, expected.value, balance);
    assert ok == Submittable(env, n, before, pool.max, tx, expected.value);
  }

  /** A template over what the chain publishes, and the search for its proof of work. */
  method MineOn(env: Env, active: seq<Block>, balances: map<Text, u64>, nonces: map<Text, u64>, issued: u64, receiver: Text, txs: seq<Tx>,
                ghost s: State)
    returns (b: Option<Block>)
    requires env.version == 2 && |active| > 0 && View(balances, nonces) == s.accounts && issued == s.miningIssued
    ensures b.Some? ==> Mined(env, active, s, receiver, txs, b.value).Some?
    ensures b.None? ==> SnapshotReward(env, s).None? || !ValidAddress(receiver)
                        || SearchFails(env, active[|active| - 1], receiver, SnapshotReward(env, s).value,
                                       RequiredDifficulty(active), Select(s.accounts, txs))
  {
    var reward := MiningReward(issued);
    if reward.None? || !ValidAddress(receiver) { return None; }
    var chosen := Choose(nonces, txs, balances);
    var d := NextDifficultyOf(active);
    b := Search(env, active[|active| - 1], receiver, reward.value, d, chosen);
  }

  /** Pending transactions are in the form the codec reads. */
  ghost predicate AllNormal(p: Pending) {
    forall k {:trigger NormalAt(p, k)} :: NormalAt(p, k)
  }

  predicate NormalAt(p: Pending, k: Text) { k in p ==> Journal.NormalTx(p[k]) }

  lemma AllNormalPut(p: Pending, tx: Tx)
    requires AllNormal(p) && Journal.NormalTx(tx)
    ensures AllNormal(p[tx.txId := tx])
  {
    var q := p[tx.txId := tx];
    forall k
      ensures NormalAt(q, k)
    {
      assert NormalAt(p, k);
    }
  }

  lemma AllNormalLess(p: Pending, ids: set<Text>)
    requires AllNormal(p)
    ensures AllNormal(p - ids)
  {
    var q := p - ids;
    forall k
      ensures NormalAt(q, k)
    {
      assert NormalAt(p, k);
    }
  }

  /** So is the coinbase, and every block mined from them. */
  lemma CoinbaseIsNormal(env: Env, receiver: Text, reward: u64, timestamp: int)
    requires ValidEnv(env) && env.version == 2 && ValidAddress(receiver)
    ensures var tx := NewCoinbase(env, receiver, reward, timestamp); Journal.NormalTx(tx) && Materialized(env.crypto, tx) == tx
  {
    var tx := NewCoinbase(env, receiver, reward, timestamp);
    Journal.HexIsLegible(env.networkId);
    Journal.SenderIsLegible(COINBASE_SENDER);
    Journal.SenderIsLegible(receiver);
    Journal.HexIsLegible(tx.txId);
    assert Utf8.WellFormed([]);
  }

  lemma HeaderIsLegible(env: Env, tip: Block, difficulty: int, txs: seq<Tx>, nonce: u64)
    requires AllHex(tip.hash) && (|txs| == 1 ==> AllHex(IdentityHash(txs[0])))
    ensures var header := TemplateHeader(env, tip, difficulty, txs, nonce);
            Journal.Legible(Block(header, txs, env.crypto.headerHash(header)))
  {
    var header := TemplateHeader(env, tip, difficulty, txs, nonce);
    RootIsHex(env.crypto, Ids(txs));
    Journal.HexIsLegible(header.previousHash);
    Journal.HexIsLegible(header.merkleRoot);
    Journal.HexIsLegible(env.crypto.headerHash(header));
  }

  lemma {:induction false} OwnBlockIsNormal(env: Env, p: Pending, ch: seq<Block>, receiver: Text, listing: seq<Tx>, b: Block)
    requires ValidEnv(env) && env.version == 2 && ValidChain(env, ch) && LedgerOf(env, ch).Some?
    requires Drawn(p, listing) && AllNormal(p)
    requires Mined(env, ch, LedgerOf(env, ch).value, receiver, listing, b).Some?
    ensures Journal.Normal(b)
  {
    var s := LedgerOf(env, ch).value;
    var tip := ch[|ch| - 1];
    SelectionDrawn(p, s.accounts, listing);
    Persist.TipIsHex(env, ch);
    AssembledIsNormal(env, p, tip, receiver, SnapshotReward(env, s).value, RequiredDifficulty(ch), Select(s.accounts, listing), b.header.nonce);
  }

  lemma {:induction false} AssembledIsNormal(env: Env, p: Pending, tip: Block, receiver: Text, reward: u64, difficulty: int, xs: seq<Tx>, nonce: u64)
    requires ValidEnv(env) && env.version == 2 && ValidAddress(receiver) && AllHex(tip.hash)
    requires Drawn(p, xs) && AllNormal(p)
    ensures Journal.Normal(Assemble(env, tip, receiver, reward, difficulty, xs, nonce))
  {
    var b := Assemble(env, tip, receiver, reward, difficulty, xs, nonce);
    var coinbase := NewCoinbase(env, receiver, reward, tip.header.timestamp + 1);
    CoinbaseIsNormal(env, receiver, reward, tip.header.timestamp + 1);
    assert b.txs[0] == coinbase;
    HeaderIsLegible(env, tip, difficulty, b.txs, nonce);
    forall i | 0 <= i < |b.txs|
      ensures Journal.NormalTx(b.txs[i])
    {
      if i > 0 { PoolIsMaterialized(env.crypto, p, xs, i - 1); }
    }
  }

  /** What is drawn from the pool has its identity already. */
  lemma {:induction false} PoolIsMaterialized(c: Crypto, p: Pending, xs: seq<Tx>, i: nat)
    requires Drawn(p, xs) && AllNormal(p) && i < |xs|
    ensures Journal.NormalTx(xs[i]) && Materialized(c, xs[i]) == xs[i]
  {
    DrawnAre(p, xs, i);
    assert NormalAt(p, xs[i].txId);
  }

  class LedgerNode {
    const chain: Chain
    const v2pool: V2Pool

    constructor (chain: Chain, v2pool: V2Pool)
      ensures this.chain == chain && this.v2pool == v2pool
    {
      this.chain, this.v2pool := chain, v2pool;
    }

    ghost predicate Valid()
      reads chain, chain.store, v2pool
    {
      chain.Abs().Some? && v2pool.Valid() && AllNormal(v2pool.byID) && chain.env.version == 2
    }

    ghost function Value(): Local
      requires Valid()
      reads chain, chain.store, v2pool
    { Local(chain.Abs().value, v2pool.byID) }

    ghost function Ledger(): State
      requires Valid() && LedgerOf(chain.env, chain.Abs().value.active).Some?
      reads chain, chain.store, v2pool
    { LedgerOf(chain.env, chain.Abs().value.active).value }

    /** `SubmitTransaction` of a decoded transaction. */
    method SubmitTransaction(tx: Tx) returns (ok: bool)
      requires Valid() && Journal.NormalTx(tx)
      modifies v2pool
      ensures Valid() && LedgerOf(chain.env, old(Value()).node.active).Some?
      ensures ok == Admits(chain.env, old(Value()).node, old(Value()).pool, v2pool.max, tx)
      ensures Value() == Local(old(Value()).node, if ok then old(Value()).pool[tx.txId := tx] else old(Value()).pool)
    {
      chain.Reads();
      ViewReads(chain.balances, chain.nonces, tx.sender);
      ok := SubmitPending(v2pool, chain.env, chain.confirmedTx, At(chain.balances, tx.sender), At(chain.nonces, tx.sender), tx,
                          Node(chain.blocks, chain.active));
      if ok { AllNormalPut(old(v2pool.byID), tx); }
    }

    /** `mineNext` under version 2: reward, selection, difficulty and proof of work. */
    method MineNext(receiver: Text, txs: seq<Tx>) returns (b: Option<Block>)
      requires Valid()
      ensures LedgerOf(chain.env, chain.active).Some? && |chain.active| > 0
      ensures var s := LedgerOf(chain.env, chain.active).value;
              && (b.Some? ==> Mined(chain.env, chain.active, s, receiver, txs, b.value).Some?)
              && (b.None? ==> CannotMine(chain.env, chain.active, receiver, txs))
    {
      chain.Reads();
      ghost var s := LedgerOf(chain.env, chain.active).value;
      b := MineOn(chain.env, chain.active, chain.balances, chain.nonces, chain.miningIssued, receiver, txs, s);
    }

    /** The journal can hold what the node mines. */
    lemma OwnIsNormal(receiver: Text, txs: seq<Tx>, b: Block)
      requires Valid() && LedgerOf(chain.env, chain.active).Some? && |chain.active| > 0 && Drawn(v2pool.byID, txs)
      requires Mined(chain.env, chain.active, LedgerOf(chain.env, chain.active).value, receiver, txs, b).Some?
      ensures Journal.Normal(b)
    {
      chain.Reads();
      StoredChainIsValid(chain.env, chain.blocks, TipHash(Node(chain.blocks, chain.active)));
      OwnBlockIsNormal(chain.env, v2pool.byID, chain.active, receiver, txs, b);
    }

    /** The mining endpoint: list, mine, accept, drop what is confirmed. */
    method Mine(receiver: Text, now: int) returns (mined: Option<Block>, ghost listing: seq<Tx>, accepted: bool)
      requires Valid()
      modifies chain, chain.store, v2pool
      ensures Valid() && LedgerOf(chain.env, old(Value()).node.active).Some? && |old(Value()).node.active| > 0
      ensures TreeOk(chain.env.crypto, old(Value()).node.blocks)
      ensures Listed(listing) && Drawn(old(v2pool.byID), listing)
      ensures |listing| == if |old(v2pool.byID)| > 500 then 500 else |old(v2pool.byID)|
      ensures mined.None? ==> Value() == old(Value()) && !accepted
      ensures mined.None? ==> CannotMine(chain.env, old(Value()).node.active, receiver, listing)
      ensures mined.Some? ==> Acts(chain.env, chain.Lim(), v2pool.max, old(Value()), Act.Mine(receiver, listing, now, mined.value), Value())
      ensures mined.Some? ==> accepted == (Tree.Accept(chain.env, chain.Lim(), old(Value()).node, now, mined.value).0 in {Best, Fork})
    {
      chain.Reads();
      var txs := v2pool.List(500);
      listing := txs;
      mined := MineNext(receiver, txs);
      if mined.None? { return None, txs, false; }
      OwnIsNormal(receiver, txs, mined.value);
      accepted := AcceptOwn(mined.value, now);
    }

    method AcceptOwn(b: Block, now: int) returns (accepted: bool)
      requires Valid() && Journal.Normal(b)
      modifies chain, chain.store, v2pool
      ensures Valid() && TreeOk(chain.env.crypto, old(Value()).node.blocks)
      ensures var (reason, n) := Tree.Accept(chain.env, chain.Lim(), old(Value()).node, now, b);
              && accepted == (reason == Best || reason == Fork)
              && Value() == Local(n, if accepted then old(Value()).pool - ChainIds(n.active) else old(Value()).pool)
    {
      var reason;
      accepted, reason := chain.Accept(now, b);
      if !accepted { return; }
      chain.Reads();
      var ids := ListIds(chain.active);
      AllNormalLess(v2pool.byID, ChainIds(chain.active));
      v2pool.RemoveIDs(ids);
    }
  }

  /** The next difficulty as the miner computes it is the one validation requires. */
  method NextDifficultyOf(prefix: seq<Block>) returns (d: int)
    ensures d == RequiredDifficulty(prefix)
  {
    var base := 4;
    if |prefix| > 0 && prefix[|prefix| - 1].header.index > 0 { base := prefix[|prefix| - 1].header.difficulty; }
    if |prefix| < DIFFICULTY_INTERVAL || |prefix| % DIFFICULTY_INTERVAL != 0 { return base; }
    d := ComputeNextDifficulty(prefix[|prefix| - DIFFICULTY_INTERVAL..], DEFAULT_CONFIG, 4);
  }

  /** The identities of every active block, genesis included. */
  method ListIds(ch: seq<Block>) returns (ids: seq<Text>)
    ensures (set k | k in ids) == ChainIds(ch)
  {
    ids := [];
    for i := 0 to |ch|
      invariant (set k | k in ids) == ChainIds(ch[..i])
    {
      assert ch[..i + 1][..i] == ch[..i];
      IdsAreSet(ch[i].txs);
      ids := ids + Ids(ch[i].txs);
    }
    assert ch[..|ch|] == ch;
  }

  lemma IdsAreSet(txs: seq<Tx>)
    ensures (set k | k in Ids(txs)) == IdSet(txs)
  {
    forall k | k in IdSet(txs)
      ensures k in Ids(txs)
    {
      var i :| 0 <= i < |txs| && IdentityHash(txs[i]) == k;
      assert Ids(txs)[i] == k;
    }
  }

  lemma OnlyFreeNonce(p: Pending, a: Text, from: u64, n: u64)
    requires FirstFree(p, a, from, n)
    ensures forall m: u64 {:trigger FirstFree(p, a, from, m)} :: FirstFree(p, a, from, m) ==> m == n
  {
  }

  lemma NoFreeNonce(p: Pending, a: Text, from: u64)
    requires forall m {:trigger HasNonce(p, a, m)} :: from <= m <= MAX64 ==> HasNonce(p, a, m)
    ensures forall m: u64 {:trigger FirstFree(p, a, from, m)} :: !FirstFree(p, a, from, m)
  {
  }
}
