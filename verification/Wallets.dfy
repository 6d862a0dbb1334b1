/** Only wallet addresses ever hold an account, which fixes the size of a state checkpoint. */
module Wallets {
  import opened Base
  import opened Protocol
  import opened Rules
  import opened Ledger
  import opened Conservation
  import opened Equivalence
  import opened Checkpoint
  import Journal

  ghost predicate AllWallets(a: Accounts) {
    forall k :: k in a ==> ValidAddress(k)
  }

  lemma TransferKeys(a: Accounts, from: Text, to: Text, v: u64)
    requires Transfer(a, from, to, v).Some?
    ensures Transfer(a, from, to, v).value.Keys == a.Keys + {from, to}
  {
  }

  lemma StepKeepsWallets(env: Env, reward: u64, a: Accounts, tx: Tx)
    requires AllWallets(a) && Step(RuleOf(env), env, reward, a, tx).Some?
    ensures AllWallets(Step(RuleOf(env), env, reward, a, tx).value)
  {
    if !IsCoinbase(tx) { TransferKeys(a, tx.sender, tx.receiver, tx.amount); }
  }

  lemma {:induction false} RunKeepsWallets(env: Env, reward: u64, a: Accounts, txs: seq<Tx>)
    requires AllWallets(a) && Run(RuleOf(env), env, reward, a, txs).Some?
    ensures AllWallets(Run(RuleOf(env), env, reward, a, txs).value)
    decreases |txs|
  {
    if txs != [] {
      RunKeepsWallets(env, reward, a, txs[..|txs| - 1]);
      StepKeepsWallets(env, reward, Run(RuleOf(env), env, reward, a, txs[..|txs| - 1]).value, txs[|txs| - 1]);
    }
  }

  lemma {:induction false} CreditAllWallets(xs: seq<Allocation>)
    requires forall i :: 0 <= i < |xs| ==> ValidAddress(xs[i].recipient)
    requires CreditAll(map[], xs).Some?
    ensures AllWallets(CreditAll(map[], xs).value)
    decreases |xs|
  {
    if xs != [] { CreditAllWallets(xs[..|xs| - 1]); }
  }

  lemma GenesisHoldsWallets(env: Env)
    requires ValidEnv(env)
    ensures AllWallets(GenesisAccounts(env))
  {
    GenesisConserves(env);
    if env.genesis.Some? { CreditAllWallets(env.genesis.value.allocations); }
  }

  lemma BlockKeepsWallets(env: Env, s: State, b: Block, reward: u64)
    requires AllWallets(s.accounts) && ApplyBlock(env, s, b, reward).Some?
    ensures AllWallets(ApplyBlock(env, s, b, reward).value.accounts)
  {
    RunKeepsWallets(env, reward, s.accounts, b.txs);
  }

  /** On a chain every account belongs to a wallet address. */
  lemma {:induction false} LedgerHoldsWallets(env: Env, ch: seq<Block>)
    requires ValidEnv(env) && LedgerOf(env, ch).Some?
    ensures AllWallets(LedgerOf(env, ch).value.accounts)
    decreases |ch|
  {
    if |ch| <= 1 {
      GenesisHoldsWallets(env);
    } else {
      LedgerStep(env, ch);
      LedgerHoldsWallets(env, ch[..|ch| - 1]);
      var s := LedgerOf(env, ch[..|ch| - 1]).value;
      Accepted(env, ch[..|ch| - 1], ch[|ch| - 1], s);
      BlockKeepsWallets(env, s, ch[|ch| - 1], SnapshotReward(env, s).value);
    }
  }

  // ---- the size limit ------------------------------------------------------

  /** What `CheckpointCapacity` shows to be the limit of `SaveStateCheckpoint` on a ledger state. */
  const MAX_CHECKPOINT_ACCOUNTS: nat := 62_599

  predicate FitsRecord(s: State) { |s.accounts| <= MAX_CHECKPOINT_ACCOUNTS }

  lemma AddressLength(a: Accounts)
    requires AllWallets(a)
    ensures forall k :: k in a ==> |k| == 43
  {
  }

  lemma SizeLimit(n: nat)
    ensures 106 + 67 * n <= Journal.MAX_RECORD - 64 <==> n <= 62_599
  {
  }

  lemma WalletStateCapacity(c: Crypto, s: State)
    requires AllWallets(s.accounts)
    ensures |Encode(c, s)| <= Journal.MAX_RECORD - 64 <==> FitsRecord(s)
  {
    AddressLength(s.accounts);
    CheckpointSize(c, s);
    SizeLimit(|s.accounts|);
  }

  lemma WalletStateDecodes(c: Crypto, s: State)
    requires AllWallets(s.accounts) && |s.accounts| <= 62_599
    ensures Decode(c, Encode(c, s)) == Some(s)
  {
    assert forall k :: k in s.accounts ==> |k| == 43;
    CheckpointRoundTrip(c, s);
  }

  /** A ledger state fits a checkpoint record exactly up to 62,599 accounts, and then it can be read back. */
  lemma CheckpointCapacity(env: Env, ch: seq<Block>)
    requires ValidEnv(env) && LedgerOf(env, ch).Some?
    ensures |Encode(env.crypto, LedgerOf(env, ch).value)| <= Journal.MAX_RECORD - 64 <==> |LedgerOf(env, ch).value.accounts| <= 62_599
    ensures FitsRecord(LedgerOf(env, ch).value) ==>
              Decode(env.crypto, Encode(env.crypto, LedgerOf(env, ch).value)) == LedgerOf(env, ch)
  {
    LedgerHoldsWallets(env, ch);
    var s := LedgerOf(env, ch).value;
    WalletStateCapacity(env.crypto, s);
    if FitsRecord(s) { WalletStateDecodes(env.crypto, s); }
  }
}
