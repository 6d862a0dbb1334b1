/**
 * The snapshot path and full validation accept the same blocks and compute the same state,
 * and the supply follows the height on every valid chain.
 */
module Equivalence {
  import opened Base
  import opened Protocol
  import opened Rules
  import opened Merkle
  import opened Ledger
  import opened Conservation

  // ---- the four transaction loops ------------------------------------------

  /** The V1 loops agree once every transaction passed the structural rules. */
  lemma {:induction false} V1RunsAgree(env: Env, reward: u64, a: Accounts, txs: seq<Tx>)
    requires env.version == 1
    requires forall i :: 0 <= i < |txs| ==> TxValid(env, reward, txs[i])
    ensures Run(V1Incremental, env, reward, a, txs) == Run(V1Transition, env, reward, a, txs) == Run(V1Replay, env, 0, a, txs)
  {
    if txs != [] {
      var init := txs[..|txs| - 1];
      assert forall i :: 0 <= i < |init| ==> init[i] == txs[i];
      V1RunsAgree(env, reward, a, init);
      ReservedSendersAreNoAddresses();
      assert TxValid(env, reward, txs[|txs| - 1]);
    }
  }

  /** A V2 run succeeds only on transactions that pass the structural rules. */
  lemma {:induction false} V2RunValidates(env: Env, reward: u64, a: Accounts, txs: seq<Tx>)
    requires env.version >= 2 && Run(V2Rule, env, reward, a, txs).Some?
    ensures forall i :: 0 <= i < |txs| ==> TxValid(env, reward, txs[i])
  {
    if txs != [] {
      var init := txs[..|txs| - 1];
      V2RunValidates(env, reward, a, init);
      forall i | 0 <= i < |txs|
        ensures TxValid(env, reward, txs[i])
      {
        if i < |init| { assert init[i] == txs[i]; }
      }
    }
  }

  lemma ValidBlockFacts(env: Env, reward: u64, txs: seq<Tx>)
    requires forall i :: 0 <= i < |txs| ==> TxValid(env, reward, txs[i])
    requires Coinbases(txs) == 1
    ensures CoinbaseSum(txs) == reward
    ensures forall i :: 0 <= i < |txs| ==> txs[i].sender != GENESIS_ALLOCATION_SENDER
  {
    ReservedSendersAreNoAddresses();
    CoinbaseSumIsReward(txs, reward);
  }

  // ---- what is known about a valid prefix ----------------------------------

  /** The monetary schedule: supply and issuance are functions of the height. */
  ghost predicate Schedule(env: Env, ch: seq<Block>, s: State) {
    && |ch| > 0
    && ch[|ch| - 1].header.index == |ch| - 1
    && s.genesisSupply == GenesisSupply(env)
    && s.miningIssued == BLOCK_REWARD * (|ch| - 1)
    && s.supply == s.genesisSupply + s.miningIssued
    && s.supply <= MAX_SUPPLY
    && TotalBalance(s.accounts) == s.supply
  }

  /** The recomputations over the whole prefix give what the snapshot holds. */
  ghost predicate Recomputes(env: Env, ch: seq<Block>, s: State) {
    var r := Replay(env, ch);
    && MiningIssuedFor(ch) == Some(s.miningIssued)
    && (env.genesis.None? ==> SupplyFor(ch) == s.supply)
    && r.Some?
    && r.value.accounts == s.accounts && r.value.mined == s.miningIssued && r.value.supply == s.supply
    && r.value.seen <= ChainIds(ch)
  }

  /** Every reward is exactly the block reward: the short-remainder branch cannot be taken. */
  lemma RewardIsExact(env: Env, ch: seq<Block>, s: State)
    requires ValidEnv(env) && Schedule(env, ch, s)
    ensures SnapshotReward(env, s).Some? ==>
              SnapshotReward(env, s) == Some(BLOCK_REWARD) && s.supply + BLOCK_REWARD <= MAX_SUPPLY
    ensures SnapshotReward(env, s).None? <==> |ch| - 1 == (if env.genesis.Some? then 8_640_000 else 14_400_000)
  {
    var h := |ch| - 1;
    if env.genesis.Some? {
      assert MINING_ALLOCATION == BLOCK_REWARD * 8_640_000;
      assert BLOCK_REWARD * h <= MAX_SUPPLY - GENESIS_TOTAL;
    } else {
      assert MAX_SUPPLY == BLOCK_REWARD * 14_400_000;
    }
  }

  lemma PrefixRewardIsSnapshotReward(env: Env, ch: seq<Block>, s: State)
    requires ValidEnv(env) && Recomputes(env, ch, s)
    ensures PrefixReward(env, ch) == SnapshotReward(env, s)
  {
  }

  // ---- one block -----------------------------------------------------------

  /** On a scheduled snapshot neither the overflow nor the supply tests can fire for a well-formed block. */
  lemma LimitsNeverFire(env: Env, ch: seq<Block>, s: State, txs: seq<Tx>)
    requires ValidEnv(env) && Schedule(env, ch, s) && SnapshotReward(env, s).Some?
    requires CoinbaseSum(txs) == SnapshotReward(env, s).value
    ensures Issue(s.miningIssued, s.supply, txs) == Some(Issued(s.miningIssued + BLOCK_REWARD, s.supply + BLOCK_REWARD))
    ensures WithinLimits(env, s.miningIssued + BLOCK_REWARD, s.supply + BLOCK_REWARD)
    ensures s.supply + BLOCK_REWARD <= MAX_SUPPLY
  {
    RewardIsExact(env, ch, s);
    IssueExact(s.miningIssued, s.supply, txs);
  }

  lemma FreshIdsNonEmpty(seen: set<Text>, txs: seq<Tx>)
    requires Fresh(seen, txs)
    ensures [] !in IdSet(txs)
  {
  }

  lemma FreshAntitone(seen: set<Text>, seen': set<Text>, txs: seq<Tx>)
    requires Fresh(seen', txs) && seen <= seen'
    ensures Fresh(seen, txs) && FreshOrEmpty(seen, txs)
  {
  }

  /** One block: full validation of the prefix and block succeeds exactly when the snapshot path does. */
  lemma StepAgrees(env: Env, prefix: seq<Block>, b: Block, s: State)
    requires ValidEnv(env) && Schedule(env, prefix, s) && Recomputes(env, prefix, s)
    ensures FullNext(env, b, prefix) <==> Incremental(env, b, prefix, s).Some?
  {
    PrefixRewardIsSnapshotReward(env, prefix, s);
    if SnapshotReward(env, s).Some? && HeaderOk(env, b, prefix) {
      var reward := SnapshotReward(env, s).value;
      if env.version >= 2 {
        StepAgreesV2(env, prefix, b, s, reward);
      } else if Structure(env, prefix, b, reward) {
        StepAgreesV1(env, prefix, b, s, reward);
      }
    }
  }

  lemma StepAgreesV2(env: Env, prefix: seq<Block>, b: Block, s: State, reward: u64)
    requires ValidEnv(env) && env.version >= 2 && Schedule(env, prefix, s) && Recomputes(env, prefix, s)
    requires SnapshotReward(env, s) == Some(reward)
    ensures FullTransactionsV2(env, prefix, b, reward) <==>
            Structure(env, prefix, b, reward) && ApplyBlock(env, s, b, reward).Some?
  {
    if FullTransactionsV2(env, prefix, b, reward) {
      V2RunValidates(env, reward, s.accounts, b.txs);
      ValidBlockFacts(env, reward, b.txs);
      LimitsNeverFire(env, prefix, s, b.txs);
      FreshIdsNonEmpty(ChainIds(prefix), b.txs);
    }
  }

  lemma StepAgreesV1(env: Env, prefix: seq<Block>, b: Block, s: State, reward: u64)
    requires ValidEnv(env) && env.version == 1 && Schedule(env, prefix, s) && Recomputes(env, prefix, s)
    requires SnapshotReward(env, s) == Some(reward) && Structure(env, prefix, b, reward)
    ensures StateTransition(env, prefix, b, reward) <==> ApplyBlock(env, s, b, reward).Some?
  {
    V1RunsAgree(env, reward, s.accounts, b.txs);
    ValidBlockFacts(env, reward, b.txs);
    LimitsNeverFire(env, prefix, s, b.txs);
  }

  // ---- the accepted block's state ------------------------------------------

  /** What an accepted block passed. */
  lemma Accepted(env: Env, prefix: seq<Block>, b: Block, s: State)
    requires Incremental(env, b, prefix, s).Some?
    ensures SnapshotReward(env, s).Some?
    ensures Structure(env, prefix, b, SnapshotReward(env, s).value) && HeaderOk(env, b, prefix)
    ensures Incremental(env, b, prefix, s) == ApplyBlock(env, s, b, SnapshotReward(env, s).value)
  {
  }

  lemma AcceptedIndex(env: Env, prefix: seq<Block>, b: Block, s: State)
    requires Schedule(env, prefix, s) && Incremental(env, b, prefix, s).Some?
    ensures b.header.index == |prefix|
  {
  }

  lemma AcceptedReward(env: Env, prefix: seq<Block>, b: Block, s: State)
    requires ValidEnv(env) && Schedule(env, prefix, s) && Incremental(env, b, prefix, s).Some?
    ensures SnapshotReward(env, s) == Some(BLOCK_REWARD) && CoinbaseSum(b.txs) == BLOCK_REWARD
    ensures forall i :: 0 <= i < |b.txs| ==> b.txs[i].sender != GENESIS_ALLOCATION_SENDER
    ensures s.supply + BLOCK_REWARD <= MAX_SUPPLY
  {
    Accepted(env, prefix, b, s);
    RewardIsExact(env, prefix, s);
    ValidBlockFacts(env, BLOCK_REWARD, b.txs);
  }

  /** An accepted block keeps the schedule. */
  lemma ScheduleStep(env: Env, prefix: seq<Block>, b: Block, s: State)
    requires ValidEnv(env) && Schedule(env, prefix, s) && Incremental(env, b, prefix, s).Some?
    ensures Schedule(env, prefix + [b], Incremental(env, b, prefix, s).value)
  {
    Accepted(env, prefix, b, s);
    AcceptedReward(env, prefix, b, s);
    LimitsNeverFire(env, prefix, s, b.txs);
    LastOf(prefix, b);
    RunTotal(RuleOf(env), env, BLOCK_REWARD, s.accounts, b.txs);
  }

  lemma MinedExtends(prefix: seq<Block>, b: Block, mined: u64)
    requires MiningIssuedFor(prefix) == Some(mined) && b.header.index != 0
    requires forall i :: 0 <= i < |b.txs| ==> b.txs[i].sender != GENESIS_ALLOCATION_SENDER
    requires mined + CoinbaseSum(b.txs) <= MAX64
    ensures MiningIssuedFor(prefix + [b]) == Some(mined + CoinbaseSum(b.txs))
  {
    LastOf(prefix, b);
    MinedInExact(mined, b.txs);
  }

  lemma SupplyExtends(prefix: seq<Block>, b: Block, supply: u64)
    requires SupplyFor(prefix) == supply && b.header.index != 0 && supply + CoinbaseSum(b.txs) <= MAX64
    ensures SupplyFor(prefix + [b]) == supply + CoinbaseSum(b.txs)
  {
    LastOf(prefix, b);
  }

  lemma MinedStep(env: Env, prefix: seq<Block>, b: Block, s: State)
    requires MiningIssuedFor(prefix) == Some(s.miningIssued) && (env.genesis.None? ==> SupplyFor(prefix) == s.supply)
    requires b.header.index > 0 && CoinbaseSum(b.txs) == BLOCK_REWARD
    requires s.miningIssued <= s.supply && s.supply + BLOCK_REWARD <= MAX_SUPPLY
    requires forall i :: 0 <= i < |b.txs| ==> b.txs[i].sender != GENESIS_ALLOCATION_SENDER
    ensures MiningIssuedFor(prefix + [b]) == Some(s.miningIssued + BLOCK_REWARD)
    ensures env.genesis.None? ==> SupplyFor(prefix + [b]) == s.supply + BLOCK_REWARD
  {
    MinedExtends(prefix, b, s.miningIssued);
    if env.genesis.None? { SupplyExtends(prefix, b, s.supply); }
  }

  lemma ReplayStepV2(env: Env, prefix: seq<Block>, b: Block, r: Replayed, reward: u64, a: Accounts, n: Issued)
    requires |prefix| > 0 && ReplayBlocksV2(env, prefix) == Some(r)
    requires MiningIssuedFor(prefix) == Some(r.mined) && MiningReward(r.mined) == Some(reward)
    requires Run(V2Rule, env, reward, r.accounts, b.txs) == Some(a) && Issue(r.mined, r.supply, b.txs) == Some(n)
    requires Fresh(r.seen, b.txs) && Coinbases(b.txs) == 1 && b.header.merkleRoot == MerkleRoot(env.crypto, Ids(b.txs))
    ensures ReplayBlocksV2(env, prefix + [b]) == Some(Replayed(a, n.mined, n.supply, r.seen + IdSet(b.txs)))
  {
    LastOf(prefix, b);
  }

  lemma ReplayStepV1(env: Env, prefix: seq<Block>, b: Block, r: Replayed, a: Accounts, n: Issued)
    requires ReplayBlocksV1(env, prefix) == Some(r) && b.header.index > 0
    requires Run(V1Replay, env, 0, r.accounts, b.txs) == Some(a) && Issue(r.mined, r.supply, b.txs) == Some(n)
    requires FreshOrEmpty(r.seen, b.txs)
    ensures ReplayBlocksV1(env, prefix + [b]) == Some(Replayed(a, n.mined, n.supply, r.seen + (IdSet(b.txs) - {[]})))
  {
    LastOf(prefix, b);
  }

  lemma ChainIdsExtend(prefix: seq<Block>, b: Block)
    ensures ChainIds(prefix + [b]) == ChainIds(prefix) + IdSet(b.txs)
  {
    LastOf(prefix, b);
  }

  lemma ReplayStep(env: Env, prefix: seq<Block>, b: Block, s: State)
    requires ValidEnv(env) && Schedule(env, prefix, s) && Recomputes(env, prefix, s) && Incremental(env, b, prefix, s).Some?
    ensures var s' := Incremental(env, b, prefix, s).value;
            var r := Replay(env, prefix + [b]);
            r.Some? && r.value.accounts == s'.accounts && r.value.mined == s'.miningIssued && r.value.supply == s'.supply
            && r.value.seen <= ChainIds(prefix + [b])
  {
    AcceptedReward(env, prefix, b, s);
    Accepted(env, prefix, b, s);
    LimitsNeverFire(env, prefix, s, b.txs);
    var s' := Incremental(env, b, prefix, s).value;
    var r := Replay(env, prefix).value;
    var n := Issued(s'.miningIssued, s'.supply);
    FreshAntitone(r.seen, ChainIds(prefix), b.txs);
    ChainIdsExtend(prefix, b);
    if env.version >= 2 {
      ReplayStepV2(env, prefix, b, r, BLOCK_REWARD, s'.accounts, n);
    } else {
      V1RunsAgree(env, BLOCK_REWARD, s.accounts, b.txs);
      ReplayStepV1(env, prefix, b, r, s'.accounts, n);
    }
  }

  lemma AcceptedState(env: Env, prefix: seq<Block>, b: Block, s: State)
    requires ValidEnv(env) && Schedule(env, prefix, s) && Incremental(env, b, prefix, s).Some?
    ensures var s' := Incremental(env, b, prefix, s).value;
            && s'.miningIssued == s.miningIssued + BLOCK_REWARD
            && s'.supply == s.supply + BLOCK_REWARD
            && s'.genesisSupply == s.genesisSupply
  {
    AcceptedReward(env, prefix, b, s);
    Accepted(env, prefix, b, s);
    LimitsNeverFire(env, prefix, s, b.txs);
  }

  lemma RecomputesStep(env: Env, prefix: seq<Block>, b: Block, s: State)
    requires ValidEnv(env) && Schedule(env, prefix, s) && Recomputes(env, prefix, s) && Incremental(env, b, prefix, s).Some?
    ensures Recomputes(env, prefix + [b], Incremental(env, b, prefix, s).value)
  {
    AcceptedState(env, prefix, b, s);
    AcceptedReward(env, prefix, b, s);
    AcceptedIndex(env, prefix, b, s);
    MinedStep(env, prefix, b, s);
    ReplayStep(env, prefix, b, s);
  }

  // ---- whole chains --------------------------------------------------------

  lemma GenesisBase(env: Env, ch: seq<Block>)
    requires ValidEnv(env) && |ch| == 1 && ch[0].header.index == 0
    ensures Schedule(env, ch, InitialState(env)) && Recomputes(env, ch, InitialState(env))
  {
    GenesisConserves(env);
    assert ch[..0] == [];
    assert ch[..|ch| - 1] == [];
    assert MiningIssuedFor(ch) == Some(0);
    assert SupplyFor(ch[..|ch| - 1]) == 0;
    assert ReplayBlocksV1(env, []) == Some(InitialReplay(env));
    assert ReplayBlocksV1(env, ch) == Some(InitialReplay(env));
    assert ReplayBlocksV2(env, ch) == Some(InitialReplay(env));
  }

  lemma ExtendLedger(env: Env, prefix: seq<Block>, b: Block, s: State)
    requires ValidEnv(env) && LedgerOf(env, prefix) == Some(s) && Schedule(env, prefix, s) && Recomputes(env, prefix, s)
    requires FullNext(env, b, prefix)
    ensures Incremental(env, b, prefix, s).Some? && LedgerOf(env, prefix + [b]) == Incremental(env, b, prefix, s)
    ensures var s' := Incremental(env, b, prefix, s).value;
            Schedule(env, prefix + [b], s') && Recomputes(env, prefix + [b], s')
  {
    StepAgrees(env, prefix, b, s);
    ScheduleStep(env, prefix, b, s);
    RecomputesStep(env, prefix, b, s);
    LastOf(prefix, b);
    LedgerStep(env, prefix + [b]);
  }

  ghost predicate Consistent(env: Env, ch: seq<Block>) {
    LedgerOf(env, ch).Some? && Schedule(env, ch, LedgerOf(env, ch).value) && Recomputes(env, ch, LedgerOf(env, ch).value)
  }

  lemma Unextend(env: Env, ch: seq<Block>)
    requires ValidChain(env, ch) && |ch| > 1
    ensures ValidChain(env, ch[..|ch| - 1]) && FullNext(env, ch[|ch| - 1], ch[..|ch| - 1])
  {
    SplitLast(ch);
    ValidStep(env, ch[..|ch| - 1], ch[|ch| - 1]);
  }

  /** Every valid chain has a ledger state, and replaying the chain from genesis computes that state. */
  lemma {:induction false} ValidChainHasLedger(env: Env, ch: seq<Block>)
    requires ValidEnv(env) && ValidChain(env, ch)
    ensures Consistent(env, ch)
    decreases |ch|
  {
    if |ch| == 1 {
      GenesisBase(env, ch);
    } else {
      var prefix, b := ch[..|ch| - 1], ch[|ch| - 1];
      Unextend(env, ch);
      SplitLast(ch);
      ValidChainHasLedger(env, prefix);
      ExtendLedger(env, prefix, b, LedgerOf(env, prefix).value);
    }
  }

  /**
   * The snapshot path is full validation: on a valid prefix both accept the same blocks, and
   * the snapshot after an accepted block is what replaying prefix and block computes.
   */
  lemma IncrementalIsFullValidation(env: Env, prefix: seq<Block>, b: Block)
    requires ValidEnv(env) && ValidChain(env, prefix)
    ensures LedgerOf(env, prefix).Some?
    ensures var s := LedgerOf(env, prefix).value;
            && (FullNext(env, b, prefix) <==> Incremental(env, b, prefix, s).Some?)
            && (FullNext(env, b, prefix) ==>
                  var s' := Incremental(env, b, prefix, s).value;
                  var r := Replay(env, prefix + [b]);
                  && ValidChain(env, prefix + [b])
                  && LedgerOf(env, prefix + [b]) == Some(s')
                  && r.Some? && r.value.accounts == s'.accounts
                  && r.value.mined == s'.miningIssued && r.value.supply == s'.supply)
  {
    ValidChainHasLedger(env, prefix);
    var s := LedgerOf(env, prefix).value;
    StepAgrees(env, prefix, b, s);
    if FullNext(env, b, prefix) {
      LastOf(prefix, b);
      ValidStep(env, prefix, b);
      LedgerStep(env, prefix + [b]);
      RecomputesStep(env, prefix, b, s);
    }
  }

  /** A chain is valid exactly when it starts at genesis and every snapshot step succeeds. */
  lemma {:induction false} ValidIffLedger(env: Env, ch: seq<Block>)
    requires ValidEnv(env) && |ch| > 0
    ensures ValidChain(env, ch) <==>
            MatchesGenesis(env.crypto, ch[0]) && ch[0].header.index == 0 && LedgerOf(env, ch).Some?
    decreases |ch|
  {
    if |ch| > 1 {
      var prefix, b := ch[..|ch| - 1], ch[|ch| - 1];
      assert prefix[0] == ch[0];
      ValidIffLedger(env, prefix);
      assert prefix + [b] == ch;
      ValidStep(env, prefix, b);
      LedgerStep(env, ch);
      if ValidChain(env, prefix) { IncrementalIsFullValidation(env, prefix, b); }
    }
  }

  // ---- supply --------------------------------------------------------------

  /** What the recomputations over a whole valid chain give: `replayBalances`, `miningIssuedFor` and `supplyFor`. */
  lemma RecomputationsFollowHeight(env: Env, ch: seq<Block>)
    requires ValidEnv(env) && ValidChain(env, ch)
    ensures MiningIssuedFor(ch) == Some(5_000_000_000 * (|ch| - 1))
    ensures env.genesis.None? ==> SupplyFor(ch) == 5_000_000_000 * (|ch| - 1)
    ensures var r := Replay(env, ch);
            && r.Some?
            && r.value.mined == 5_000_000_000 * (|ch| - 1)
            && r.value.supply == (if env.genesis.Some? then 28_800_000_000_000_000 else 0) + r.value.mined
            && TotalBalance(r.value.accounts) == r.value.supply <= MAX_SUPPLY
  {
    ValidChainHasLedger(env, ch);
  }

  /** Conservation and the issuance schedule on every valid chain, with the exact height limits. */
  lemma SupplyFollowsHeight(env: Env, ch: seq<Block>)
    requires ValidEnv(env) && ValidChain(env, ch)
    ensures var h := |ch| - 1;
            var s := LedgerOf(env, ch);
            && s.Some?
            && s.value.miningIssued == 5_000_000_000 * h
            && s.value.supply == (if env.genesis.Some? then 28_800_000_000_000_000 else 0) + 5_000_000_000 * h
            && TotalBalance(s.value.accounts) == s.value.supply <= MAX_SUPPLY
            && h <= (if env.genesis.Some? then 8_640_000 else 14_400_000)
            && (SnapshotReward(env, s.value) == if h == (if env.genesis.Some? then 8_640_000 else 14_400_000) then None else Some(BLOCK_REWARD))
  {
    ValidChainHasLedger(env, ch);
    RewardIsExact(env, ch, LedgerOf(env, ch).value);
  }

  /** No credit on a valid chain can overflow: with the block's own reward every balance stays below 2^64. */
  lemma CreditsNeverOverflow(env: Env, prefix: seq<Block>, b: Block, i: nat, k: Text, v: u64)
    requires ValidEnv(env) && ValidChain(env, prefix) && FullNext(env, b, prefix) && i <= |b.txs|
    ensures LedgerOf(env, prefix).Some?
    ensures var s := LedgerOf(env, prefix).value;
            var a := Run(RuleOf(env), env, BLOCK_REWARD, s.accounts, b.txs[..i]);
            a.Some? && TotalBalance(a.value) <= MAX_SUPPLY && (v <= MAX_SUPPLY ==> Credit(a.value, k, v).Some?)
  {
    IncrementalIsFullValidation(env, prefix, b);
    ValidChainHasLedger(env, prefix);
    var s := LedgerOf(env, prefix).value;
    AcceptedReward(env, prefix, b, s);
    Accepted(env, prefix, b, s);
    var reward: u64 := BLOCK_REWARD;
    RunPrefix(RuleOf(env), env, reward, s.accounts, b.txs, i);
    RunTotal(RuleOf(env), env, reward, s.accounts, b.txs[..i]);
    CoinbaseSumMonotone(b.txs, i);
    CreditTotal(Run(RuleOf(env), env, reward, s.accounts, b.txs[..i]).value, k, v);
  }
}
