/**
 * The economic state as mathematical values: what one transaction does, what replaying a
 * whole chain computes, what the snapshot path computes, and when a block is valid.
 * (internal/chain/chain.go, internal/chain/v2.go, internal/consensus/reward.go)
 */
module Ledger {
  import opened Base
  import opened Protocol
  import opened Rules
  import opened Merkle

  // ---- accounts ------------------------------------------------------------

  datatype Account = Account(balance: u64, nonce: u64)
  type Accounts = map<Text, Account>

  /** A snapshot read through the union of its balance and nonce keys. */
  datatype State = State(accounts: Accounts, genesisSupply: u64, miningIssued: u64, supply: u64)

  function Balance(a: Accounts, k: Text): u64 { if k in a then a[k].balance else 0 }
  function Nonce(a: Accounts, k: Text): u64 { if k in a then a[k].nonce else 0 }

  function Credit(a: Accounts, k: Text, v: u64): Option<Accounts> {
    if MAX64 - Balance(a, k) < v then None
    else Some(a[k := Account(Balance(a, k) + v, Nonce(a, k))])
  }

  function Debit(a: Accounts, k: Text, v: u64): Option<Accounts> {
    if v > Balance(a, k) then None
    else Some(a[k := Account(Balance(a, k) - v, Nonce(a, k))])
  }

  function Transfer(a: Accounts, from: Text, to: Text, v: u64): Option<Accounts> {
    var b :- Debit(a, from, v);
    Credit(b, to, v)
  }

  function SetNonce(a: Accounts, k: Text, n: u64): Accounts {
    a[k := Account(Balance(a, k), n)]
  }

  // ---- one transaction -----------------------------------------------------

  predicate IsCoinbase(tx: Tx) { tx.sender == COINBASE_SENDER }

  /** The four loops over a block's transactions differ in what they test. */
  datatype Rule =
    | V2Rule          // applyIncrementalV2, validateV2TransactionsAndState and replayV2State
    | V1Incremental   // applyIncrementalV1
    | V1Transition    // stateTransition
    | V1Replay        // replayBalances

  function StepV2(env: Env, reward: u64, a: Accounts, tx: Tx): Option<Accounts> {
    if IsCoinbase(tx) then
      if CoinbaseValidV2(env.crypto, env.networkId, reward, tx) then Credit(a, tx.receiver, tx.amount) else None
    else if !ValidV2(env.crypto, env.networkId, tx) || tx.nonce != Nonce(a, tx.sender) || tx.nonce == MAX64 then None
    else
      var b :- Transfer(a, tx.sender, tx.receiver, tx.amount);
      Some(SetNonce(b, tx.sender, tx.nonce + 1))
  }

  predicate V1Admits(rule: Rule, env: Env, reward: u64, tx: Tx) {
    && tx.sender != GENESIS_ALLOCATION_SENDER
    && (rule == V1Incremental || !IsCoinbase(tx) ==> ValidV1(env.crypto, tx))
    && (rule != V1Replay && IsCoinbase(tx) ==> tx.amount == reward)
  }

  function StepV1(rule: Rule, env: Env, reward: u64, a: Accounts, tx: Tx): Option<Accounts> {
    if !V1Admits(rule, env, reward, tx) then None
    else if IsCoinbase(tx) then Credit(a, tx.receiver, tx.amount)
    else Transfer(a, tx.sender, tx.receiver, tx.amount)
  }

  function Step(rule: Rule, env: Env, reward: u64, a: Accounts, tx: Tx): Option<Accounts> {
    if rule.V2Rule? then StepV2(env, reward, a, tx) else StepV1(rule, env, reward, a, tx)
  }

  /** Runs the transactions in block order; the first failing one stops the run. */
  function Run(rule: Rule, env: Env, reward: u64, a: Accounts, txs: seq<Tx>): Option<Accounts> {
    if txs == [] then Some(a)
    else
      var b :- Run(rule, env, reward, a, txs[..|txs| - 1]);
      Step(rule, env, reward, b, txs[|txs| - 1])
  }

  // ---- issuance ------------------------------------------------------------

  function Coinbases(txs: seq<Tx>): nat {
    if txs == [] then 0 else Coinbases(txs[..|txs| - 1]) + (if IsCoinbase(txs[|txs| - 1]) then 1 else 0)
  }

  datatype Issued = Issued(mined: u64, supply: u64)

  function IssueStep(r: Issued, tx: Tx): Option<Issued> {
    if !IsCoinbase(tx) then Some(r)
    else if MAX64 - r.mined < tx.amount || MAX64 - r.supply < tx.amount then None
    else Some(Issued(r.mined + tx.amount, r.supply + tx.amount))
  }

  function Issue(mined: u64, supply: u64, txs: seq<Tx>): Option<Issued> {
    if txs == [] then Some(Issued(mined, supply))
    else
      var r :- Issue(mined, supply, txs[..|txs| - 1]);
      IssueStep(r, txs[|txs| - 1])
  }

  /** `ExpectedMiningReward` and `ExpectedReward`. */
  function MiningReward(mined: u64): Option<u64> {
    if mined >= MINING_ALLOCATION then None
    else if MINING_ALLOCATION - mined < BLOCK_REWARD then None
    else Some(BLOCK_REWARD)
  }

  function SupplyReward(supply: u64): Option<u64> {
    if supply >= MAX_SUPPLY then None
    else if MAX_SUPPLY - supply < BLOCK_REWARD then Some(MAX_SUPPLY - supply)
    else Some(BLOCK_REWARD)
  }

  function MinedIn(total: u64, txs: seq<Tx>): Option<u64> {
    if txs == [] then Some(total)
    else
      var r :- MinedIn(total, txs[..|txs| - 1]);
      var tx := txs[|txs| - 1];
      if tx.sender == GENESIS_ALLOCATION_SENDER then None
      else if !IsCoinbase(tx) then Some(r)
      else if MAX64 - r < tx.amount then None
      else Some(r + tx.amount)
  }

  /** `miningIssuedFor`. */
  function MiningIssuedFor(ch: seq<Block>): Option<u64> {
    if ch == [] then Some(0)
    else
      var r :- MiningIssuedFor(ch[..|ch| - 1]);
      var b := ch[|ch| - 1];
      if b.header.index == 0 then Some(r) else MinedIn(r, b.txs)
  }

  function CoinbaseSum(txs: seq<Tx>): nat {
    if txs == [] then 0 else CoinbaseSum(txs[..|txs| - 1]) + (if IsCoinbase(txs[|txs| - 1]) then txs[|txs| - 1].amount else 0)
  }

  /** `supplyFor`: an unchecked 64-bit sum. */
  function SupplyFor(ch: seq<Block>): u64 {
    if ch == [] then 0
    else
      var b := ch[|ch| - 1];
      var s := SupplyFor(ch[..|ch| - 1]);
      if b.header.index == 0 then s else (s + CoinbaseSum(b.txs)) % TWO64
  }

  // ---- transaction identities ----------------------------------------------

  function Ids(txs: seq<Tx>): seq<Text> { seq(|txs|, i requires 0 <= i < |txs| => IdentityHash(txs[i])) }
  function TxHashes(txs: seq<Tx>): seq<Text> { seq(|txs|, i requires 0 <= i < |txs| => txs[i].txHash) }
  function IdSet(txs: seq<Tx>): set<Text> { set i | 0 <= i < |txs| :: IdentityHash(txs[i]) }

  function ChainIds(ch: seq<Block>): set<Text> {
    if ch == [] then {} else ChainIds(ch[..|ch| - 1]) + IdSet(ch[|ch| - 1].txs)
  }

  predicate FreshAt(seen: set<Text>, txs: seq<Tx>, i: nat)
    requires i < |txs|
  {
    IdentityHash(txs[i]) !in seen && IdentityHash(txs[i]) !in IdSet(txs[..i])
  }

  /** Every identity is non-empty, unseen and new within the block. */
  predicate Fresh(seen: set<Text>, txs: seq<Tx>) {
    forall i :: 0 <= i < |txs| ==> IdentityHash(txs[i]) != [] && FreshAt(seen, txs, i)
  }

  /** `replayBalances` lets an empty identity pass. */
  predicate FreshOrEmpty(seen: set<Text>, txs: seq<Tx>) {
    forall i :: 0 <= i < |txs| ==> IdentityHash(txs[i]) == [] || FreshAt(seen, txs, i)
  }

  // ---- the snapshot path ---------------------------------------------------

  function RuleOf(env: Env): Rule { if env.version >= 2 then V2Rule else V1Incremental }

  /** The reward read from a snapshot. */
  function SnapshotReward(env: Env, s: State): Option<u64> { RewardFrom(env, s.miningIssued, s.supply) }

  function RewardFrom(env: Env, mined: u64, supply: u64): Option<u64> {
    if env.version >= 2 || env.genesis.Some? then MiningReward(mined) else SupplyReward(supply)
  }

  predicate TxValid(env: Env, reward: u64, tx: Tx) {
    if env.version >= 2 then
      if IsCoinbase(tx) then CoinbaseValidV2(env.crypto, env.networkId, reward, tx) else ValidV2(env.crypto, env.networkId, tx)
    else
      ValidV1(env.crypto, tx) && (IsCoinbase(tx) ==> tx.publicKey == [] && tx.signature == [] && tx.amount == reward)
  }

  /** `transactionsValid` (V1) and `validateV2TransactionsAndStateStructure` (V2, V3). */
  predicate Structure(env: Env, prefix: seq<Block>, b: Block, reward: u64) {
    && (env.version >= 2 ==> [] !in ChainIds(prefix))
    && Fresh(ChainIds(prefix), b.txs)
    && (forall i :: 0 <= i < |b.txs| ==> TxValid(env, reward, b.txs[i]))
    && Coinbases(b.txs) == 1
    && b.header.merkleRoot == MerkleRoot(env.crypto, if env.version >= 2 then Ids(b.txs) else TxHashes(b.txs))
    && env.crypto.headerHash(b.header) == b.hash
  }

  /** The last tests of `applyIncrementalV1/V2`. */
  predicate WithinLimits(env: Env, mined: u64, supply: u64) {
    if env.version == 1 && env.genesis.Some? then mined <= MINING_ALLOCATION && GENESIS_TOTAL + mined <= MAX_SUPPLY
    else supply <= MAX_SUPPLY
  }

  function ApplyBlock(env: Env, s: State, b: Block, reward: u64): Option<State> {
    var a :- Run(RuleOf(env), env, reward, s.accounts, b.txs);
    var r :- Issue(s.miningIssued, s.supply, b.txs);
    if Coinbases(b.txs) == 1 && WithinLimits(env, r.mined, r.supply)
       && (env.version >= 2 ==> [] !in IdSet(b.txs))
    then Some(State(a, s.genesisSupply, r.mined, r.supply)) else None
  }

  /** `validateIncrementalBlock`: the next snapshot, or a rejection. */
  function Incremental(env: Env, b: Block, prefix: seq<Block>, s: State): Option<State> {
    if prefix == [] then None
    else
      var reward :- SnapshotReward(env, s);
      if HeaderOk(env, b, prefix) && Structure(env, prefix, b, reward) then ApplyBlock(env, s, b, reward) else None
  }

  // ---- the economic genesis ------------------------------------------------

  function CreditAll(a: Accounts, xs: seq<Allocation>): Option<Accounts> {
    if xs == [] then Some(a)
    else
      var b :- CreditAll(a, xs[..|xs| - 1]);
      Credit(b, xs[|xs| - 1].recipient, xs[|xs| - 1].amount)
  }

  function GenesisSupply(env: Env): u64 { if env.genesis.Some? then GENESIS_TOTAL else 0 }

  function GenesisAccounts(env: Env): Accounts {
    if env.genesis.None? then map[]
    else match CreditAll(map[], env.genesis.value.allocations) case Some(a) => a case None => map[]
  }

  function InitialState(env: Env): State {
    State(GenesisAccounts(env), GenesisSupply(env), 0, GenesisSupply(env))
  }

  // ---- full replay ---------------------------------------------------------

  datatype Replayed = Replayed(accounts: Accounts, mined: u64, supply: u64, seen: set<Text>)

  function InitialReplay(env: Env): Replayed {
    Replayed(GenesisAccounts(env), 0, GenesisSupply(env), {})
  }

  /** The block loop of `replayV2State`. */
  function ReplayBlocksV2(env: Env, ch: seq<Block>): Option<Replayed> {
    if |ch| <= 1 then Some(InitialReplay(env))
    else
      var r :- ReplayBlocksV2(env, ch[..|ch| - 1]);
      var mined :- MiningIssuedFor(ch[..|ch| - 1]);
      var reward :- MiningReward(mined);
      ReplayBlockV2(env, r, ch[|ch| - 1], reward)
  }

  function ReplayBlockV2(env: Env, r: Replayed, b: Block, reward: u64): Option<Replayed> {
    var a :- Run(V2Rule, env, reward, r.accounts, b.txs);
    var n :- Issue(r.mined, r.supply, b.txs);
    if Fresh(r.seen, b.txs) && Coinbases(b.txs) == 1 && b.header.merkleRoot == MerkleRoot(env.crypto, Ids(b.txs))
    then Some(Replayed(a, n.mined, n.supply, r.seen + IdSet(b.txs))) else None
  }

  /** The block loop of `replayBalances`. */
  function ReplayBlocksV1(env: Env, ch: seq<Block>): Option<Replayed> {
    if ch == [] then Some(InitialReplay(env))
    else
      var r :- ReplayBlocksV1(env, ch[..|ch| - 1]);
      var b := ch[|ch| - 1];
      if b.header.index == 0 then Some(r) else ReplayBlockV1(env, r, b)
  }

  function ReplayBlockV1(env: Env, r: Replayed, b: Block): Option<Replayed> {
    var a :- Run(V1Replay, env, 0, r.accounts, b.txs);
    var n :- Issue(r.mined, r.supply, b.txs);
    if FreshOrEmpty(r.seen, b.txs)
    then Some(Replayed(a, n.mined, n.supply, r.seen + (IdSet(b.txs) - {[]}))) else None
  }

  /** `replayV2State` and `replayBalances` with their closing supply tests. */
  function Replay(env: Env, ch: seq<Block>): Option<Replayed> {
    var r :- if env.version >= 2 then ReplayBlocksV2(env, ch) else ReplayBlocksV1(env, ch);
    if WithinLimits(env, r.mined, r.supply) then Some(r) else None
  }

  // ---- full validation -----------------------------------------------------

  /** The reward recomputed from the whole prefix. */
  function PrefixReward(env: Env, prefix: seq<Block>): Option<u64> {
    if env.version >= 2 || env.genesis.Some? then
      var mined :- MiningIssuedFor(prefix);
      MiningReward(mined)
    else SupplyReward(SupplyFor(prefix))
  }

  /** `validateV2TransactionsAndState`. */
  predicate FullTransactionsV2(env: Env, prefix: seq<Block>, b: Block, reward: u64) {
    var r := Replay(env, prefix);
    && r.Some?
    && [] !in ChainIds(prefix)
    && Fresh(ChainIds(prefix), b.txs)
    && Run(V2Rule, env, reward, r.value.accounts, b.txs).Some?
    && Coinbases(b.txs) == 1
    && b.header.merkleRoot == MerkleRoot(env.crypto, Ids(b.txs))
    && env.crypto.headerHash(b.header) == b.hash
  }

  /** `stateTransition`. */
  predicate StateTransition(env: Env, prefix: seq<Block>, b: Block, reward: u64) {
    var r := Replay(env, prefix);
    && r.Some?
    && Run(V1Transition, env, reward, r.value.accounts, b.txs).Some?
    && Coinbases(b.txs) == 1
    && var n := Issue(r.value.mined, r.value.supply, b.txs);
      && n.Some?
      && (env.genesis.Some? ==> WithinLimits(env, n.value.mined, n.value.supply))
      && n.value.supply <= MAX_SUPPLY
  }

  /** `validateNext` and `validateNextV2`. */
  predicate FullNext(env: Env, b: Block, prefix: seq<Block>)
    requires |prefix| > 0
  {
    var reward := PrefixReward(env, prefix);
    && reward.Some?
    && HeaderOk(env, b, prefix)
    && if env.version >= 2 then FullTransactionsV2(env, prefix, b, reward.value)
       else Structure(env, prefix, b, reward.value) && StateTransition(env, prefix, b, reward.value)
  }

  /** `validateChain` on a chain that `buildChain` walked down to an index-zero block. */
  predicate ValidChain(env: Env, ch: seq<Block>)
    decreases |ch|, 0
  {
    && |ch| > 0
    && if |ch| == 1 then MatchesGenesis(env.crypto, ch[0]) && ch[0].header.index == 0
       else Follows(env, ch[..|ch| - 1], ch[|ch| - 1])
  }

  /** One block more; in two steps, so that only `ValidStep` looks into full validation. */
  predicate Follows(env: Env, prefix: seq<Block>, b: Block)
    requires |prefix| > 0
    decreases |prefix|, 2
  {
    PassesOn(env, prefix, b)
  }

  predicate PassesOn(env: Env, prefix: seq<Block>, b: Block)
    requires |prefix| > 0
    decreases |prefix|, 1
  {
    ValidChain(env, prefix) && FullNext(env, b, prefix)
  }

  lemma ValidStep(env: Env, prefix: seq<Block>, b: Block)
    requires |prefix| > 0
    ensures ValidChain(env, prefix + [b]) <==> ValidChain(env, prefix) && FullNext(env, b, prefix)
  {
    var ch := prefix + [b];
    assert ch[..|ch| - 1] == prefix;
    assert ValidChain(env, ch) == Follows(env, prefix, b);
    assert Follows(env, prefix, b) == PassesOn(env, prefix, b);
  }

  /** The state after a chain, one snapshot step per block. */
  function LedgerOf(env: Env, ch: seq<Block>): Option<State>
    decreases |ch|, 0
  {
    if |ch| <= 1 then Some(InitialState(env)) else Extension(env, ch[..|ch| - 1], ch[|ch| - 1])
  }

  /** The state after one more block, likewise looked into by `LedgerStep` only. */
  function Extension(env: Env, prefix: seq<Block>, b: Block): Option<State>
    decreases |prefix|, 2
  {
    StateAfter(env, prefix, b)
  }

  function StateAfter(env: Env, prefix: seq<Block>, b: Block): Option<State>
    decreases |prefix|, 1
  {
    var s :- LedgerOf(env, prefix);
    Incremental(env, b, prefix, s)
  }

  lemma LedgerStep(env: Env, ch: seq<Block>)
    requires |ch| > 1
    ensures LedgerOf(env, ch) == match LedgerOf(env, ch[..|ch| - 1])
            case None => None
            case Some(s) => Incremental(env, ch[|ch| - 1], ch[..|ch| - 1], s)
  {
    assert LedgerOf(env, ch) == Extension(env, ch[..|ch| - 1], ch[|ch| - 1]);
    assert Extension(env, ch[..|ch| - 1], ch[|ch| - 1]) == StateAfter(env, ch[..|ch| - 1], ch[|ch| - 1]);
  }
}
