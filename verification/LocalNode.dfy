/**
 * A version 2 node that only takes submissions and mines on its own: the pool always fits the
 * ledger and every mined block becomes the best one. (internal/node/node.go, internal/node/api.go)
 */
module LocalNode {
  import opened Base
  import opened Protocol
  import opened Retarget
  import opened Rules
  import opened Merkle
  import opened Ledger
  import opened Conservation
  import opened Equivalence
  import opened Tree
  import opened ChainMemory
  import opened Mempool
  import opened Selection
  import opened Drain
  import opened Template
  import opened Clashes

  // ---- a node with only its own blocks --------------------------------------

  predicate OwnTx(env: Env, b: Block, tx: Tx) {
    && tx.version == 2 && tx.txId == env.crypto.txId(PayloadV2(tx))
    && (IsCoinbase(tx) ==> tx.timestamp == b.header.timestamp)
  }

  ghost predicate OwnBlock(env: Env, n: Node, h: Text)
    requires h in n.blocks
  {
    var b := n.blocks[h];
    && b.header.index < |n.active|
    && b.hash == env.crypto.headerHash(b.header)
    && b.header.timestamp == GENESIS_TIMESTAMP + b.header.index
    && (b.header.index > 0 ==> forall i :: 0 <= i < |b.txs| ==> OwnTx(env, b, b.txs[i]))
  }

  ghost predicate Homegrown(env: Env, n: Node) {
    ValidNode(env, n) && forall h {:trigger OwnBlock(env, n, h)} :: h in n.blocks ==> OwnBlock(env, n, h)
  }

  datatype Local = Local(node: Node, pool: Pending)

  /** The pool fits the ledger of the active chain and holds nothing confirmed. */
  ghost predicate LocalOk(env: Env, l: Local) {
    && Homegrown(env, l.node)
    && LedgerOf(env, l.node.active).Some?
    && PoolOk(env.crypto, env.networkId, l.pool, LedgerOf(env, l.node.active).value.accounts)
    && l.pool.Keys !! ChainIds(l.node.active)
  }

  lemma StartOk(env: Env)
    requires ValidEnv(env)
    ensures LocalOk(env, Local(InitialNode(env), map[]))
  {
    InitialNodeValid(env);
    var n := InitialNode(env);
    forall h | h in n.blocks
      ensures OwnBlock(env, n, h)
    {
    }
  }

  // ---- who owns an identity ------------------------------------------------

  lemma {:induction false} IdOwner(ch: seq<Block>, id: Text) returns (i: nat, j: nat)
    requires id in ChainIds(ch)
    ensures i < |ch| && j < |ch[i].txs| && IdentityHash(ch[i].txs[j]) == id
    decreases |ch|
  {
    var init := ch[..|ch| - 1];
    if id in ChainIds(init) {
      i, j := IdOwner(init, id);
    } else {
      i := |ch| - 1;
      j :| j < |ch[i].txs| && IdentityHash(ch[i].txs[j]) == id;
    }
  }

  lemma ActiveBlock(env: Env, n: Node, i: nat)
    requires Homegrown(env, n) && i < |n.active|
    ensures var b := n.active[i];
            && b.hash in n.blocks && n.blocks[b.hash] == b && b.header.index == i
            && OwnBlock(env, n, b.hash) && n.active[0] == Genesis(env.crypto)
  {
    ChainShape(env.crypto, n.blocks, TipHash(n));
    ChainPrefix(env.crypto, n.blocks, TipHash(n), i);
    assert OwnBlock(env, n, n.active[i].hash);
  }

  /** An identity on the chain is the genesis transaction's or the hash of its owner's payload. */
  lemma OwnedBy(env: Env, n: Node, id: Text) returns (i: nat, j: nat)
    requires Homegrown(env, n) && id in ChainIds(n.active)
    ensures i < |n.active| && j < |n.active[i].txs|
    ensures |id| == 64
    ensures if i == 0 then id == Sha256Hex(env.crypto, GENESIS_MESSAGE)
            else OwnTx(env, n.active[i], n.active[i].txs[j]) && id == n.active[i].txs[j].txId
    ensures n.active[i].header.timestamp <= n.active[|n.active| - 1].header.timestamp
  {
    i, j := IdOwner(n.active, id);
    ActiveBlock(env, n, i);
    ActiveBlock(env, n, |n.active| - 1);
  }

  lemma NoEmptyIds(env: Env, n: Node)
    requires Homegrown(env, n)
    ensures [] !in ChainIds(n.active)
  {
    if [] in ChainIds(n.active) { var i, j := OwnedBy(env, n, []); }
  }

  // ---- submission ----------------------------------------------------------

  /** `SubmitTransaction` accepts. */
  ghost predicate Submittable(env: Env, n: Node, p: Pending, max: nat, tx: Tx, expected: u64)
    requires LedgerOf(env, n.active).Some?
  {
    var acc := LedgerOf(env, n.active).value.accounts;
    && tx.txId !in ConfirmedIds(n.active)
    && FirstFree(p, tx.sender, Nonce(acc, tx.sender), expected)
    && Admissible(env.crypto, env.networkId, p, max, tx, expected, Balance(acc, tx.sender))
  }

  /** There is a free nonce with which the submission is admitted. */
  ghost predicate Admits(env: Env, n: Node, p: Pending, max: nat, tx: Tx)
    requires LedgerOf(env, n.active).Some?
  {
    exists e: u64 {:trigger Submittable(env, n, p, max, tx, e)} :: Submittable(env, n, p, max, tx, e)
  }

  lemma {:induction false} ConfirmedOwner(ch: seq<Block>, i: nat, j: nat)
    requires i < |ch| && j < |ch[i].txs| && ch[i].header.index != 0
    ensures IdentityHash(ch[i].txs[j]) in ConfirmedIds(ch)
    decreases |ch|
  {
    if i < |ch| - 1 { ConfirmedOwner(ch[..|ch| - 1], i, j); }
  }

  /** A submission keeps the pool fitting, or its identity is the genesis transaction's. */
  lemma SubmitKeeps(env: Env, l: Local, max: nat, tx: Tx, expected: u64) returns (e: Option<Clash>)
    requires LocalOk(env, l) && Submittable(env, l.node, l.pool, max, tx, expected)
    ensures e.None? ==> LocalOk(env, Local(l.node, l.pool[tx.txId := tx]))
    ensures e.Some? ==> Real(env.crypto, e.value)
  {
    var acc := LedgerOf(env, l.node.active).value.accounts;
    AddKeepsPool(env.crypto, env.networkId, l.pool, max, acc, tx, expected);
    e := None;
    if tx.txId in ChainIds(l.node.active) {
      var i, j := OwnedBy(env, l.node, tx.txId);
      if i > 0 {
        ActiveBlock(env, l.node, i);
        ConfirmedOwner(l.node.active, i, j);
      }
      e := Some(GenesisId(PayloadV2(tx)));
    }
  }

  // ---- mining --------------------------------------------------------------

  /** A repeated coinbase identity is a clash. */
  lemma CoinbaseClash(env: Env, l: Local, receiver: Text, reward: u64) returns (e: Clash)
    requires LocalOk(env, l)
    requires !CoinbaseNew(env, l.node.active, l.pool, receiver, reward, l.node.active[|l.node.active| - 1].header.timestamp + 1)
    ensures Real(env.crypto, e)
  {
    var t := l.node.active[|l.node.active| - 1].header.timestamp + 1;
    var coin := NewCoinbase(env, receiver, reward, t);
    if coin.txId in l.pool {
      assert EntryOk(env.crypto, env.networkId, l.pool, coin.txId);
      e := TxIds(PayloadV2(coin), PayloadV2(l.pool[coin.txId]));
    } else {
      var i, j := OwnedBy(env, l.node, coin.txId);
      e := if i == 0 then GenesisId(PayloadV2(coin)) else TxIds(PayloadV2(coin), PayloadV2(l.node.active[i].txs[j]));
    }
  }

  /** A repeated block hash is a clash: no stored block has the new height. */
  lemma HashClash(env: Env, n: Node, b: Block)
    requires Homegrown(env, n) && b.hash in n.blocks && b.header.index == |n.active| && b.hash == env.crypto.headerHash(b.header)
    ensures Real(env.crypto, Headers(b.header, n.blocks[b.hash].header))
  {
    assert OwnBlock(env, n, b.hash) && NodeOk(env.crypto, n.blocks, b.hash);
  }

  lemma TimeLeft(env: Env, n: Node)
    requires ValidEnv(env) && Homegrown(env, n)
    ensures ValidChain(env, n.active) && n.active[|n.active| - 1].header.index == |n.active| - 1
    ensures n.active[|n.active| - 1].header.timestamp == GENESIS_TIMESTAMP + |n.active| - 1
    ensures 0 < n.active[|n.active| - 1].header.timestamp + 1 < TIME_LIMIT
  {
    StoredChainIsValid(env, n.blocks, TipHash(n));
    SupplyFollowsHeight(env, n.active);
    ActiveBlock(env, n, |n.active| - 1);
  }

  lemma Grounded(env: Env, l: Local, receiver: Text)
    requires ValidEnv(env) && env.version == 2 && LocalOk(env, l)
    ensures Ground(env, l.node.active, LedgerOf(env, l.node.active).value, l.pool, receiver,
                   l.node.active[|l.node.active| - 1].header.timestamp + 1)
  {
    TimeLeft(env, l.node);
    NoEmptyIds(env, l.node);
  }

  lemma HeavierByOne(ch: seq<Block>, b: Block)
    ensures ChainWork(ch + [b]) > ChainWork(ch)
  {
    LastOf(ch, b);
  }

  lemma ExtensionPasses(env: Env, n: Node, now: int, b: Block)
    requires env.version == 2 && ValidNode(env, n) && b.hash !in n.blocks
    requires b.header.previousHash == TipHash(n) && b.header.index > 0 && ValidChain(env, n.active + [b])
    ensures PrefixOf(env, n.blocks, b) == n.active && Screen(env, n.blocks, now, b) == Fork
  {
  }

  /** `Accept` on a valid extension of the active chain whose hash is not stored. */
  lemma ExtensionIsBest(env: Env, lim: Limits, n: Node, now: int, b: Block)
    requires ValidEnv(env) && env.version == 2 && ValidNode(env, n) && b.hash !in n.blocks
    requires b.header.previousHash == TipHash(n) && b.header.index > 0 && ValidChain(env, n.active + [b])
    ensures Accept(env, lim, n, now, b) ==
            if !lim.blockFits(b) then (StorageFailed, n)
            else if !CheckpointFits(env, lim, n.active + [b]) then (StorageFailed, Node(n.blocks[b.hash := b], n.active))
            else (Best, Node(n.blocks[b.hash := b], n.active + [b]))
  {
    ExtensionPasses(env, n, now, b);
    HeavierByOne(n.active, b);
    if lim.blockFits(b) { AcceptAdopts(env, lim, n, now, b); } else { AcceptCannotStore(env, lim, n, now, b); }
  }

  /** A mined block without clashes. */
  ghost predicate Clean(env: Env, l: Local, receiver: Text, listing: seq<Tx>, b: Block)
    requires |l.node.active| > 0 && LedgerOf(env, l.node.active).Some?
  {
    && b.hash !in l.node.blocks && ValidChain(env, l.node.active + [b])
    && CoinbaseNew(env, l.node.active, l.pool, receiver, BLOCK_REWARD, l.node.active[|l.node.active| - 1].header.timestamp + 1)
    && Shaped(env, l.node.active, receiver, Select(LedgerOf(env, l.node.active).value.accounts, listing), b)
  }

  lemma CleanOrClash(env: Env, l: Local, receiver: Text, listing: seq<Tx>, b: Block) returns (e: Option<Clash>)
    requires ValidEnv(env) && env.version == 2 && LocalOk(env, l) && Drawn(l.pool, listing)
    requires Mined(env, l.node.active, LedgerOf(env, l.node.active).value, receiver, listing, b).Some?
    ensures e.Some? ==> Real(env.crypto, e.value)
    ensures e.None? ==> Clean(env, l, receiver, listing, b)
  {
    var n := l.node;
    if !CoinbaseNew(env, n.active, l.pool, receiver, BLOCK_REWARD, n.active[|n.active| - 1].header.timestamp + 1) {
      var c := CoinbaseClash(env, l, receiver, BLOCK_REWARD);
      return Some(c);
    }
    LocalMinedOn(env, l, receiver, listing, b);
    MinedBlockExtends(env, n.active, LedgerOf(env, n.active).value, l.pool, receiver, listing, b);
    e := FollowingIsClean(env, l, receiver, listing, b);
  }

  lemma LocalMinedOn(env: Env, l: Local, receiver: Text, listing: seq<Tx>, b: Block)
    requires ValidEnv(env) && env.version == 2 && LocalOk(env, l) && Drawn(l.pool, listing)
    requires Mined(env, l.node.active, LedgerOf(env, l.node.active).value, receiver, listing, b).Some?
    ensures MinedOn(env, l.node.active, l.pool, receiver, listing, b) == LedgerOf(env, l.node.active)
  {
    Grounded(env, l, receiver);
  }

  lemma FollowingIsClean(env: Env, l: Local, receiver: Text, listing: seq<Tx>, b: Block) returns (e: Option<Clash>)
    requires ValidEnv(env) && env.version == 2 && LocalOk(env, l) && Extended(env, l.node.active, LedgerOf(env, l.node.active).value, receiver, listing, b).Some?
    requires CoinbaseNew(env, l.node.active, l.pool, receiver, BLOCK_REWARD, l.node.active[|l.node.active| - 1].header.timestamp + 1)
    ensures e.Some? ==> Real(env.crypto, e.value)
    ensures e.None? ==> Clean(env, l, receiver, listing, b)
  {
    e := HashNewOrClash(env, l.node, b);
  }

  lemma HashNewOrClash(env: Env, n: Node, b: Block) returns (e: Option<Clash>)
    requires ValidEnv(env) && Homegrown(env, n) && b.hash == env.crypto.headerHash(b.header)
    requires b.header.index == n.active[|n.active| - 1].header.index + 1
    ensures e.Some? ==> Real(env.crypto, e.value)
    ensures e.None? ==> b.hash !in n.blocks
  {
    e := None;
    if b.hash in n.blocks {
      TimeLeft(env, n);
      HashClash(env, n, b);
      e := Some(Headers(b.header, n.blocks[b.hash].header));
    }
  }

  lemma CleanIsBest(env: Env, lim: Limits, l: Local, receiver: Text, listing: seq<Tx>, now: int, b: Block)
    requires ValidEnv(env) && env.version == 2 && LocalOk(env, l) && Clean(env, l, receiver, listing, b)
    ensures Accept(env, lim, l.node, now, b) ==
            if !lim.blockFits(b) then (StorageFailed, l.node)
            else if !CheckpointFits(env, lim, l.node.active + [b]) then (StorageFailed, Node(l.node.blocks[b.hash := b], l.node.active))
            else (Best, Node(l.node.blocks[b.hash := b], l.node.active + [b]))
  {
    TimeLeft(env, l.node);
    ExtensionIsBest(env, lim, l.node, now, b);
  }

  // ---- after the block -----------------------------------------------------

  lemma NextState(env: Env, ch: seq<Block>, s: State, b: Block)
    requires ValidEnv(env) && env.version == 2 && ValidChain(env, ch + [b]) && |ch| > 0 && LedgerOf(env, ch) == Some(s)
    ensures LedgerOf(env, ch + [b]).Some?
    ensures Run(V2Rule, env, BLOCK_REWARD, s.accounts, b.txs) == Some(LedgerOf(env, ch + [b]).value.accounts)
    ensures SnapshotReward(env, s) == Some(BLOCK_REWARD) && TotalBalance(s.accounts) + BLOCK_REWARD <= MAX64
  {
    ValidStep(env, ch, b);
    IncrementalIsFullValidation(env, ch, b);
    ValidChainHasLedger(env, ch);
    AppliedAccounts(env, ch, b, s);
  }

  lemma AppliedAccounts(env: Env, ch: seq<Block>, b: Block, s: State)
    requires ValidEnv(env) && env.version == 2 && Schedule(env, ch, s) && Incremental(env, b, ch, s).Some?
    ensures Run(V2Rule, env, BLOCK_REWARD, s.accounts, b.txs) == Some(Incremental(env, b, ch, s).value.accounts)
    ensures SnapshotReward(env, s) == Some(BLOCK_REWARD) && TotalBalance(s.accounts) + BLOCK_REWARD <= MAX64
  {
    AcceptedReward(env, ch, b, s);
    Accepted(env, ch, b, s);
  }

  lemma OwnBlocksGrow(env: Env, n: Node, m: Node, b: Block, receiver: Text, xs: seq<Tx>)
    requires Homegrown(env, n) && ValidNode(env, m) && m == Node(n.blocks[b.hash := b], n.active + [b])
    requires n.active[|n.active| - 1].header.index == |n.active| - 1
    requires n.active[|n.active| - 1].header.timestamp == GENESIS_TIMESTAMP + |n.active| - 1
    requires Shaped(env, n.active, receiver, xs, b) && Pendings(env.crypto, env.networkId, xs)
    ensures Homegrown(env, m)
  {
    forall h | h in m.blocks
      ensures OwnBlock(env, m, h)
    {
      if h in n.blocks { assert OwnBlock(env, n, h); }
      if h == b.hash { NewBlockOwn(env, n, b, receiver, xs); }
    }
  }

  lemma NewBlockOwn(env: Env, n: Node, b: Block, receiver: Text, xs: seq<Tx>)
    requires |n.active| > 0 && Shaped(env, n.active, receiver, xs, b) && Pendings(env.crypto, env.networkId, xs)
    ensures forall i :: 0 <= i < |b.txs| ==> OwnTx(env, b, b.txs[i])
  {
    forall i | 0 <= i < |b.txs|
      ensures OwnTx(env, b, b.txs[i])
    {
      if i > 0 { assert b.txs[i] == xs[i - 1]; }
    }
  }

  lemma NewIds(env: Env, coin: Tx, xs: seq<Tx>)
    requires coin.version == 2 && Pendings(env.crypto, env.networkId, xs)
    ensures IdSet([coin] + xs) == {coin.txId} + IdsOf(xs)
  {
    var all := [coin] + xs;
    forall k | k in IdSet(all)
      ensures k in {coin.txId} + IdsOf(xs)
    {
      var i :| 0 <= i < |all| && IdentityHash(all[i]) == k;
      if i > 0 { assert all[i] == xs[i - 1]; }
    }
    forall k | k in {coin.txId} + IdsOf(xs)
      ensures k in IdSet(all)
    {
      if k == coin.txId { assert IdentityHash(all[0]) == k; }
      if k in IdsOf(xs) {
        var i :| 0 <= i < |xs| && xs[i].txId == k;
        assert IdentityHash(all[i + 1]) == k;
      }
    }
  }

  /** Removing every confirmed identity removes exactly what was selected. */
  lemma PoolAfter(env: Env, l: Local, receiver: Text, xs: seq<Tx>, b: Block)
    requires LocalOk(env, l) && Pendings(env.crypto, env.networkId, xs) && Shaped(env, l.node.active, receiver, xs, b)
    requires CoinbaseNew(env, l.node.active, l.pool, receiver, BLOCK_REWARD, l.node.active[|l.node.active| - 1].header.timestamp + 1)
    ensures l.pool - ChainIds(l.node.active + [b]) == l.pool - IdsOf(xs)
  {
    ChainIdsExtend(l.node.active, b);
    NewIds(env, b.txs[0], xs);
  }

  /** What the node looks like after its own block became the best. */
  lemma MinedKeeps(env: Env, l: Local, receiver: Text, listing: seq<Tx>, b: Block)
    requires ValidEnv(env) && env.version == 2 && LocalOk(env, l) && Drawn(l.pool, listing) && ValidAddress(receiver)
    requires Clean(env, l, receiver, listing, b)
    requires ValidNode(env, Node(l.node.blocks[b.hash := b], l.node.active + [b]))
    ensures LocalOk(env, Local(Node(l.node.blocks[b.hash := b], l.node.active + [b]), l.pool - ChainIds(l.node.active + [b])))
  {
    var s := LedgerOf(env, l.node.active).value;
    var xs := Select(s.accounts, listing);
    TimeLeft(env, l.node);
    SelectionFits(env, s, l.pool, listing);
    NextState(env, l.node.active, s, b);
    TemplateRuns(env, receiver, BLOCK_REWARD, l.node.active[|l.node.active| - 1].header.timestamp + 1, l.pool, s.accounts, xs);
    OwnBlocksGrow(env, l.node, Node(l.node.blocks[b.hash := b], l.node.active + [b]), b, receiver, xs);
    PoolAfter(env, l, receiver, xs, b);
  }

  // ---- runs ----------------------------------------------------------------

  datatype Act = Submit(tx: Tx) | Mine(receiver: Text, listing: seq<Tx>, now: int, block: Block)

  /** What one act does; `Mine` stands for a search that found its proof of work. */
  ghost predicate Acts(env: Env, lim: Limits, max: nat, l: Local, act: Act, m: Local)
    requires TreeOk(env.crypto, l.node.blocks) && |l.node.active| > 0 && LedgerOf(env, l.node.active).Some?
  {
    match act
    case Submit(tx) =>
      m.node == l.node &&
      (if Admits(env, l.node, l.pool, max, tx) then m.pool == l.pool[tx.txId := tx] else m.pool == l.pool)
    case Mine(receiver, listing, now, b) =>
      && Drawn(l.pool, listing)
      && Mined(env, l.node.active, LedgerOf(env, l.node.active).value, receiver, listing, b).Some?
      && var (reason, n) := Accept(env, lim, l.node, now, b);
         m.node == n && m.pool == if reason == Best || reason == Fork then l.pool - ChainIds(n.active) else l.pool
  }

  /** The store took the block and the checkpoint it owed. */
  ghost predicate Storable(env: Env, lim: Limits, l: Local, act: Act) {
    act.Mine? ==> lim.blockFits(act.block) && CheckpointFits(env, lim, l.node.active + [act.block])
  }

  ghost predicate BestIfMined(env: Env, lim: Limits, l: Local, act: Act) {
    act.Mine? ==> TreeOk(env.crypto, l.node.blocks) && Accept(env, lim, l.node, act.now, act.block).0 == Best
  }

  /** One act keeps pool and ledger fitting, and a mined block is best, or a clash is at hand. */
  lemma ActKeeps(env: Env, lim: Limits, max: nat, l: Local, act: Act, m: Local) returns (e: Option<Clash>)
    requires ValidEnv(env) && env.version == 2 && LocalOk(env, l)
    requires Acts(env, lim, max, l, act, m) && Storable(env, lim, l, act)
    ensures e.Some? ==> Real(env.crypto, e.value)
    ensures e.None? ==> LocalOk(env, m) && BestIfMined(env, lim, l, act)
  {
    e := None;
    match act
    case Submit(tx) =>
      if Admits(env, l.node, l.pool, max, tx) {
        var x: u64 :| Submittable(env, l.node, l.pool, max, tx, x);
        e := SubmitKeeps(env, l, max, tx, x);
      }
    case Mine(receiver, listing, now, b) =>
      e := MineKeeps(env, lim, l, receiver, listing, now, b);
  }

  lemma MineKeeps(env: Env, lim: Limits, l: Local, receiver: Text, listing: seq<Tx>, now: int, b: Block) returns (e: Option<Clash>)
    requires ValidEnv(env) && env.version == 2 && LocalOk(env, l) && Drawn(l.pool, listing)
    requires Mined(env, l.node.active, LedgerOf(env, l.node.active).value, receiver, listing, b).Some?
    requires lim.blockFits(b) && CheckpointFits(env, lim, l.node.active + [b])
    ensures e.Some? ==> Real(env.crypto, e.value)
    ensures e.None? ==>
              var (reason, n) := Accept(env, lim, l.node, now, b);
              reason == Best && n.active == l.node.active + [b] && LocalOk(env, Local(n, l.pool - ChainIds(n.active)))
  {
    e := CleanOrClash(env, l, receiver, listing, b);
    if e.None? {
      CleanIsBest(env, lim, l, receiver, listing, now, b);
      AcceptKeepsValid(env, lim, l.node, now, b);
      MinedKeeps(env, l, receiver, listing, b);
    }
  }

  /** Step `i` of a run happened and the store took its records. */
  ghost predicate StepAt(env: Env, lim: Limits, max: nat, ls: seq<Local>, acts: seq<Act>, i: nat)
    requires |ls| == |acts| + 1 && i < |acts|
  {
    && TreeOk(env.crypto, ls[i].node.blocks) && |ls[i].node.active| > 0 && LedgerOf(env, ls[i].node.active).Some?
    && Acts(env, lim, max, ls[i], acts[i], ls[i + 1]) && Storable(env, lim, ls[i], acts[i])
  }

  /** A run of submissions and own blocks from an empty store. */
  ghost predicate Runs(env: Env, lim: Limits, max: nat, ls: seq<Local>, acts: seq<Act>) {
    && |ls| == |acts| + 1 && ls[0] == Local(InitialNode(env), map[])
    && (forall i {:trigger StepAt(env, lim, max, ls, acts, i)} :: 0 <= i < |acts| ==> StepAt(env, lim, max, ls, acts, i))
  }

  /** The node before step `i`, if pool and ledger fit there and the step before it was fine. */
  ghost function SoundAt(env: Env, lim: Limits, ls: seq<Local>, acts: seq<Act>, i: nat): Option<Local>
    requires |ls| == |acts| + 1 && i <= |acts|
  {
    if LocalOk(env, ls[i]) && (i > 0 ==> BestIfMined(env, lim, ls[i - 1], acts[i - 1])) then Some(ls[i]) else None
  }

  lemma StepKeeps(env: Env, lim: Limits, max: nat, ls: seq<Local>, acts: seq<Act>, i: nat) returns (e: Option<Clash>)
    requires ValidEnv(env) && env.version == 2 && |ls| == |acts| + 1 && i < |acts|
    requires SoundAt(env, lim, ls, acts, i).Some? && StepAt(env, lim, max, ls, acts, i)
    ensures e.Some? ==> Real(env.crypto, e.value)
    ensures e.None? ==> SoundAt(env, lim, ls, acts, i + 1).Some?
  {
    e := ActKeeps(env, lim, max, ls[i], acts[i], ls[i + 1]);
  }

  /**
   * Over any run of submissions and own blocks: pending nonces stay contiguous from the confirmed
   * ones, pending spend stays covered, and every mined block is accepted as best, unless the run
   * exhibits two distinct inputs with one hash.
   */
  lemma LocalRun(env: Env, lim: Limits, max: nat, ls: seq<Local>, acts: seq<Act>, i: nat) returns (e: Option<Clash>)
    requires ValidEnv(env) && env.version == 2 && Runs(env, lim, max, ls, acts) && i <= |acts|
    ensures e.Some? ==> Real(env.crypto, e.value)
    ensures e.None? ==> LocalOk(env, ls[i]) && (i > 0 ==> BestIfMined(env, lim, ls[i - 1], acts[i - 1]))
  {
    e := RunSound(env, lim, max, ls, acts, i);
  }

  lemma {:induction false} RunSound(env: Env, lim: Limits, max: nat, ls: seq<Local>, acts: seq<Act>, i: nat) returns (e: Option<Clash>)
    requires ValidEnv(env) && env.version == 2 && Runs(env, lim, max, ls, acts) && i <= |acts|
    ensures e.Some? ==> Real(env.crypto, e.value)
    ensures e.None? ==> SoundAt(env, lim, ls, acts, i).Some?
    decreases i
  {
    if i == 0 {
      StartOk(env);
      e := None;
    } else {
      e := RunSound(env, lim, max, ls, acts, i - 1);
      assert StepAt(env, lim, max, ls, acts, i - 1);
      if e.None? { e := StepKeeps(env, lim, max, ls, acts, i - 1); }
    }
  }
}
