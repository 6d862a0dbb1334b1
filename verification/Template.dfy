/** The version 2 block template and why full validation accepts it. (internal/node/node.go, internal/block/block.go) */
module Template {
  import opened Base
  import opened Protocol
  import opened Retarget
  import opened Rules
  import opened Merkle
  import opened Ledger
  import opened Conservation
  import opened Equivalence
  import opened ChainHeaders
  import opened Mempool
  import opened Selection
  import opened Drain

  // ---- the template --------------------------------------------------------

  /** `NewV2Coinbase`. */
  function NewCoinbase(env: Env, receiver: Text, reward: u64, timestamp: int): Tx {
    var tx := Tx(2, env.networkId, 0, COINBASE_SENDER, receiver, reward, timestamp, [], [], [], []);
    tx.(txId := env.crypto.txId(PayloadV2(tx)))
  }

  /** `block.New` fills in an absent identity. */
  function Materialized(c: Crypto, tx: Tx): Tx {
    if tx.version == 2 then (if tx.txId == [] then tx.(txId := c.txId(PayloadV2(tx))) else tx)
    else if tx.txHash == [] then tx.(txHash := c.txHash(PayloadV1(tx))) else tx
  }

  function AllMaterialized(c: Crypto, txs: seq<Tx>): seq<Tx> {
    seq(|txs|, i requires 0 <= i < |txs| => Materialized(c, txs[i]))
  }

  function TemplateHeader(env: Env, tip: Block, difficulty: int, txs: seq<Tx>, nonce: u64): Header {
    Header(tip.header.index + 1, tip.hash, tip.header.timestamp + 1, nonce, difficulty, MerkleRoot(env.crypto, Ids(txs)))
  }

  /** The block assembled on a tip, for one proof-of-work nonce. */
  function Assemble(env: Env, tip: Block, receiver: Text, reward: u64, difficulty: int, chosen: seq<Tx>, nonce: u64): Block {
    var txs := AllMaterialized(env.crypto, [NewCoinbase(env, receiver, reward, tip.header.timestamp + 1)] + chosen);
    var header := TemplateHeader(env, tip, difficulty, txs, nonce);
    Block(header, txs, env.crypto.headerHash(header))
  }

  /** The reward of a block mined on a chain from a listing; `None` when it was not. */
  ghost function Mined(env: Env, ch: seq<Block>, s: State, receiver: Text, listing: seq<Tx>, b: Block): Option<u64>
    requires |ch| > 0
  {
    var reward :- SnapshotReward(env, s);
    var d := RequiredDifficulty(ch);
    if ValidAddress(receiver) && MeetsDifficulty(b.hash, d)
       && b == Assemble(env, ch[|ch| - 1], receiver, reward, d, Select(s.accounts, listing), b.header.nonce)
    then Some(reward) else None
  }

  // ---- its transactions execute --------------------------------------------

  predicate Pendings(c: Crypto, networkId: Text, xs: seq<Tx>) {
    forall i :: 0 <= i < |xs| ==> ValidV2(c, networkId, xs[i])
  }

  lemma DrawnValid(c: Crypto, networkId: Text, p: Pending, xs: seq<Tx>)
    requires Entries(c, networkId, p) && Drawn(p, xs)
    ensures Pendings(c, networkId, xs)
  {
    forall i | 0 <= i < |xs|
      ensures ValidV2(c, networkId, xs[i])
    {
      DrawnAre(p, xs, i);
      assert EntryOk(c, networkId, p, xs[i].txId);
    }
  }

  lemma {:induction false} NoCoinbases(c: Crypto, networkId: Text, xs: seq<Tx>)
    requires Pendings(c, networkId, xs)
    ensures Coinbases(xs) == 0
    decreases |xs|
  {
    if xs != [] {
      var init := xs[..|xs| - 1];
      assert forall i :: 0 <= i < |init| ==> init[i] == xs[i];
      NoCoinbases(c, networkId, init);
    }
  }

  lemma {:induction false} CoinbasesCons(coin: Tx, xs: seq<Tx>)
    requires IsCoinbase(coin)
    ensures Coinbases([coin] + xs) == 1 + Coinbases(xs)
    decreases |xs|
  {
    var all := [coin] + xs;
    if xs == [] {
      assert all[..|all| - 1] == [] && all[|all| - 1] == coin;
    } else {
      CoinbasesCons(coin, xs[..|xs| - 1]);
      assert all[..|all| - 1] == [coin] + xs[..|xs| - 1] && all[|all| - 1] == xs[|xs| - 1];
    }
  }

  lemma NothingToMaterialize(env: Env, receiver: Text, reward: u64, t: int, xs: seq<Tx>)
    requires Pendings(env.crypto, env.networkId, xs)
    ensures AllMaterialized(env.crypto, [NewCoinbase(env, receiver, reward, t)] + xs) == [NewCoinbase(env, receiver, reward, t)] + xs
  {
    var all := [NewCoinbase(env, receiver, reward, t)] + xs;
    forall i | 0 <= i < |all|
      ensures Materialized(env.crypto, all[i]) == all[i]
    {
      if i > 0 { assert all[i] == xs[i - 1]; }
    }
  }

  lemma CoinbaseRuns(env: Env, receiver: Text, reward: u64, t: int, acc: Accounts)
    requires ValidAddress(receiver) && t >= 0 && TotalBalance(acc) + reward <= MAX64
    ensures Credit(acc, receiver, reward).Some? && TotalBalance(Credit(acc, receiver, reward).value) == TotalBalance(acc) + reward
    ensures Step(V2Rule, env, reward, acc, NewCoinbase(env, receiver, reward, t)) == Credit(acc, receiver, reward)
  {
    CreditTotal(acc, receiver, reward);
  }

  /** Coinbase and selection run through, and what stays pending fits the new ledger. */
  lemma TemplateRuns(env: Env, receiver: Text, reward: u64, t: int, p: Pending, acc: Accounts, xs: seq<Tx>)
    requires ValidAddress(receiver) && t >= 0 && TotalBalance(acc) + reward <= MAX64
    requires PoolOk(env.crypto, env.networkId, p, acc) && Drawn(p, xs) && Sequenced(acc, xs)
    ensures var all := [NewCoinbase(env, receiver, reward, t)] + xs;
            && Run(V2Rule, env, reward, acc, all).Some?
            && PoolOk(env.crypto, env.networkId, p - IdsOf(xs), Run(V2Rule, env, reward, acc, all).value)
  {
    var coin := NewCoinbase(env, receiver, reward, t);
    CoinbaseRuns(env, receiver, reward, t, acc);
    var next := Credit(acc, receiver, reward).value;
    CreditKeepsPool(env.crypto, env.networkId, p, acc, receiver, reward);
    SameTurns(acc, next, xs);
    RunDrains(env, reward, p, next, xs);
    RunCons(V2Rule, env, reward, acc, [coin] + xs);
    HeadTail(coin, xs);
  }

  // ---- its identities are new ----------------------------------------------

  lemma {:induction false} DrawnDistinct(p: Pending, xs: seq<Tx>, i: nat, j: nat)
    requires Drawn(p, xs) && i < j < |xs|
    ensures xs[i].txId != xs[j].txId
    decreases |xs|
  {
    if i == 0 {
      DrawnAre(p - {xs[0].txId}, xs[1..], j - 1);
    } else {
      DrawnDistinct(p - {xs[0].txId}, xs[1..], i - 1, j - 1);
    }
  }

  lemma NewIdAt(seen: set<Text>, coin: Tx, p: Pending, xs: seq<Tx>, i: nat)
    requires Drawn(p, xs) && coin.version == 2 && coin.txId !in p && coin.txId !in seen && p.Keys !! seen
    requires forall j :: 0 <= j < |xs| ==> xs[j].version == 2
    requires i <= |xs|
    ensures FreshAt(seen, [coin] + xs, i)
  {
    var all := [coin] + xs;
    forall j | 0 <= j < i
      ensures IdentityHash(all[j]) != IdentityHash(all[i])
    {
      DrawnAre(p, xs, i - 1);
      if j > 0 { DrawnDistinct(p, xs, j - 1, i - 1); }
    }
    if i > 0 { DrawnAre(p, xs, i - 1); }
    assert forall k :: k in IdSet(all[..i]) ==> exists j :: 0 <= j < i && IdentityHash(all[j]) == k;
  }

  lemma TemplateFresh(c: Crypto, networkId: Text, seen: set<Text>, coin: Tx, p: Pending, xs: seq<Tx>)
    requires Entries(c, networkId, p) && Drawn(p, xs)
    requires coin.version == 2 && |coin.txId| == 64 && coin.txId !in p && coin.txId !in seen && p.Keys !! seen
    ensures Fresh(seen, [coin] + xs)
  {
    var all := [coin] + xs;
    DrawnValid(c, networkId, p, xs);
    forall i | 0 <= i < |all|
      ensures IdentityHash(all[i]) != [] && FreshAt(seen, all, i)
    {
      NewIdAt(seen, coin, p, xs, i);
      if i > 0 { assert all[i] == xs[i - 1]; }
    }
  }

  // ---- its header ----------------------------------------------------------

  lemma TemplateHeaderOk(env: Env, ch: seq<Block>, b: Block)
    requires ValidChain(env, ch) && env.version == 2 && 0 <= ch[|ch| - 1].header.timestamp < TIME_LIMIT - 1
    requires var tip := ch[|ch| - 1];
             && b.header.index == tip.header.index + 1 && b.header.previousHash == tip.hash
             && b.header.timestamp == tip.header.timestamp + 1 && b.header.difficulty == RequiredDifficulty(ch)
    requires b.hash == env.crypto.headerHash(b.header) && MeetsDifficulty(b.hash, RequiredDifficulty(ch))
    ensures HeaderOk(env, b, ch)
  {
    MedianAtMostParent(env, ch);
  }

  // ---- full validation -----------------------------------------------------

  /** What is known of the node a template is built on. */
  ghost predicate Ground(env: Env, ch: seq<Block>, s: State, p: Pending, receiver: Text, t: int) {
    && ValidEnv(env) && env.version == 2 && ValidChain(env, ch) && LedgerOf(env, ch) == Some(s)
    && PoolOk(env.crypto, env.networkId, p, s.accounts)
    && [] !in ChainIds(ch) && p.Keys !! ChainIds(ch)
    && ch[|ch| - 1].header.timestamp == t - 1 && 0 < t < TIME_LIMIT
  }

  /** The coinbase identity clashes with nothing confirmed or pending. */
  ghost predicate CoinbaseNew(env: Env, ch: seq<Block>, p: Pending, receiver: Text, reward: u64, t: int) {
    var id := NewCoinbase(env, receiver, reward, t).txId;
    id !in ChainIds(ch) && id !in p
  }

  lemma RewardKnown(env: Env, ch: seq<Block>, s: State)
    requires ValidEnv(env) && env.version == 2 && ValidChain(env, ch) && LedgerOf(env, ch) == Some(s)
    requires SnapshotReward(env, s).Some?
    ensures SnapshotReward(env, s) == Some(BLOCK_REWARD) == PrefixReward(env, ch)
    ensures TotalBalance(s.accounts) + BLOCK_REWARD <= MAX_SUPPLY
    ensures Replay(env, ch).Some? && Replay(env, ch).value.accounts == s.accounts
  {
    ValidChainHasLedger(env, ch);
    RewardIsExact(env, ch, s);
    PrefixRewardIsSnapshotReward(env, ch, s);
  }

  lemma TemplateTransactions(env: Env, ch: seq<Block>, s: State, p: Pending, receiver: Text, t: int, xs: seq<Tx>, b: Block)
    requires Ground(env, ch, s, p, receiver, t) && SnapshotReward(env, s).Some? && ValidAddress(receiver)
    requires Drawn(p, xs) && Sequenced(s.accounts, xs) && CoinbaseNew(env, ch, p, receiver, BLOCK_REWARD, t)
    requires b.txs == [NewCoinbase(env, receiver, BLOCK_REWARD, t)] + xs
    requires b.header.merkleRoot == MerkleRoot(env.crypto, Ids(b.txs)) && b.hash == env.crypto.headerHash(b.header)
    ensures FullTransactionsV2(env, ch, b, BLOCK_REWARD)
  {
    var coin := NewCoinbase(env, receiver, BLOCK_REWARD, t);
    RewardKnown(env, ch, s);
    TemplateRuns(env, receiver, BLOCK_REWARD, t, p, s.accounts, xs);
    TemplateFresh(env.crypto, env.networkId, ChainIds(ch), coin, p, xs);
    DrawnValid(env.crypto, env.networkId, p, xs);
    NoCoinbases(env.crypto, env.networkId, xs);
    CoinbasesCons(coin, xs);
  }

  /** What a template with nothing left to fill in looks like. */
  ghost predicate Shaped(env: Env, ch: seq<Block>, receiver: Text, xs: seq<Tx>, b: Block)
    requires |ch| > 0
  {
    var tip := ch[|ch| - 1];
    && b.header.index == tip.header.index + 1 && b.header.previousHash == tip.hash
    && b.header.timestamp == tip.header.timestamp + 1 && b.header.difficulty == RequiredDifficulty(ch)
    && b.hash == env.crypto.headerHash(b.header) && MeetsDifficulty(b.hash, RequiredDifficulty(ch))
    && b.txs == [NewCoinbase(env, receiver, BLOCK_REWARD, tip.header.timestamp + 1)] + xs
    && b.header.merkleRoot == MerkleRoot(env.crypto, Ids(b.txs))
  }

  lemma MinedShape(env: Env, ch: seq<Block>, s: State, receiver: Text, listing: seq<Tx>, b: Block)
    requires |ch| > 0 && Mined(env, ch, s, receiver, listing, b).Some? && SnapshotReward(env, s) == Some(BLOCK_REWARD)
    requires Pendings(env.crypto, env.networkId, Select(s.accounts, listing))
    ensures Shaped(env, ch, receiver, Select(s.accounts, listing), b)
  {
    NothingToMaterialize(env, receiver, BLOCK_REWARD, ch[|ch| - 1].header.timestamp + 1, Select(s.accounts, listing));
  }

  /** The selection is drawn from the pool and in sequence. */
  lemma SelectionFits(env: Env, s: State, p: Pending, listing: seq<Tx>)
    requires PoolOk(env.crypto, env.networkId, p, s.accounts) && Drawn(p, listing)
    ensures Drawn(p, Select(s.accounts, listing)) && Sequenced(s.accounts, Select(s.accounts, listing))
    ensures Pendings(env.crypto, env.networkId, Select(s.accounts, listing))
  {
    SelectionDrawn(p, s.accounts, listing);
    PoolNonces(env.crypto, env.networkId, p);
    SelectionSequenced(p, s.accounts, listing);
    DrawnValid(env.crypto, env.networkId, p, Select(s.accounts, listing));
  }

  lemma ShapedFollows(env: Env, ch: seq<Block>, s: State, p: Pending, receiver: Text, xs: seq<Tx>, b: Block)
    requires |ch| > 0 && Ground(env, ch, s, p, receiver, ch[|ch| - 1].header.timestamp + 1)
    requires SnapshotReward(env, s).Some? && ValidAddress(receiver)
    requires Drawn(p, xs) && Sequenced(s.accounts, xs) && Shaped(env, ch, receiver, xs, b)
    requires CoinbaseNew(env, ch, p, receiver, BLOCK_REWARD, ch[|ch| - 1].header.timestamp + 1)
    ensures FullNext(env, b, ch)
  {
    RewardKnown(env, ch, s);
    TemplateTransactions(env, ch, s, p, receiver, ch[|ch| - 1].header.timestamp + 1, xs, b);
    TemplateHeaderOk(env, ch, b);
  }

  lemma MinedFollows(env: Env, ch: seq<Block>, s: State, p: Pending, receiver: Text, listing: seq<Tx>, b: Block)
    requires |ch| > 0 && Ground(env, ch, s, p, receiver, ch[|ch| - 1].header.timestamp + 1)
    requires Drawn(p, listing) && Mined(env, ch, s, receiver, listing, b).Some?
    requires CoinbaseNew(env, ch, p, receiver, BLOCK_REWARD, ch[|ch| - 1].header.timestamp + 1)
    ensures ValidChain(env, ch + [b]) && Shaped(env, ch, receiver, Select(s.accounts, listing), b)
  {
    RewardKnown(env, ch, s);
    SelectionFits(env, s, p, listing);
    MinedShape(env, ch, s, receiver, listing, b);
    ShapedFollows(env, ch, s, p, receiver, Select(s.accounts, listing), b);
    ValidStep(env, ch, b);
  }

  /** The ledger a block was mined on, if it was mined on this chain from this pool. */
  ghost function MinedOn(env: Env, ch: seq<Block>, p: Pending, receiver: Text, listing: seq<Tx>, b: Block): Option<State> {
    if |ch| > 0 && LedgerOf(env, ch).Some? && Drawn(p, listing)
       && Ground(env, ch, LedgerOf(env, ch).value, p, receiver, ch[|ch| - 1].header.timestamp + 1)
       && Mined(env, ch, LedgerOf(env, ch).value, receiver, listing, b).Some?
    then LedgerOf(env, ch) else None
  }

  /** The chain extended by a well-shaped block, if it is valid. */
  ghost function Extended(env: Env, ch: seq<Block>, s: State, receiver: Text, listing: seq<Tx>, b: Block): Option<seq<Block>> {
    if |ch| > 0 && ValidChain(env, ch + [b]) && Shaped(env, ch, receiver, Select(s.accounts, listing), b) then Some(ch + [b]) else None
  }

  /** A mined block with a new coinbase identity extends its chain under full validation. */
  lemma MinedBlockExtends(env: Env, ch: seq<Block>, s: State, p: Pending, receiver: Text, listing: seq<Tx>, b: Block)
    requires |ch| > 0 && MinedOn(env, ch, p, receiver, listing, b) == Some(s)
    requires CoinbaseNew(env, ch, p, receiver, BLOCK_REWARD, ch[|ch| - 1].header.timestamp + 1)
    ensures Extended(env, ch, s, receiver, listing, b) == Some(ch + [b])
  {
    MinedFollows(env, ch, s, p, receiver, listing, b);
  }

  lemma PoolNonces(c: Crypto, networkId: Text, p: Pending)
    requires Entries(c, networkId, p)
    ensures forall k :: k in p ==> p[k].nonce != MAX64
  {
    forall k | k in p
      ensures p[k].nonce != MAX64
    {
      assert EntryOk(c, networkId, p, k);
    }
  }
}
