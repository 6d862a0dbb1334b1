/** Who holds what: every balance of a ledger is the net effect of the transactions on its chain. (internal/chain/chain.go, internal/state/balance.go) */
module NetEffect {
  import opened Base
  import opened Protocol
  import opened Ledger
  import opened Conservation
  import opened Equivalence

  // ---- sums over transactions ----------------------------------------------

  /** What an address was paid by a list of transactions. */
  function Received(txs: seq<Tx>, a: Text): nat
    decreases |txs|
  {
    if txs == [] then 0 else Received(txs[..|txs| - 1], a) + (if txs[|txs| - 1].receiver == a then txs[|txs| - 1].amount else 0)
  }

  /** What it paid; a coinbase is paid by nobody. */
  function Spent(txs: seq<Tx>, a: Text): nat
    decreases |txs|
  {
    if txs == [] then 0
    else
      var tx := txs[|txs| - 1];
      Spent(txs[..|txs| - 1], a) + (if tx.sender == a && tx.sender != COINBASE_SENDER then tx.amount else 0)
  }

  /** The same above genesis on a chain. */
  function ReceivedOn(ch: seq<Block>, a: Text): nat {
    if |ch| <= 1 then 0 else ReceivedOn(ch[..|ch| - 1], a) + Received(ch[|ch| - 1].txs, a)
  }

  function SpentOn(ch: seq<Block>, a: Text): nat {
    if |ch| <= 1 then 0 else SpentOn(ch[..|ch| - 1], a) + Spent(ch[|ch| - 1].txs, a)
  }

  function AllocatedIn(xs: seq<Allocation>, a: Text): nat {
    if xs == [] then 0 else AllocatedIn(xs[..|xs| - 1], a) + (if xs[|xs| - 1].recipient == a then xs[|xs| - 1].amount else 0)
  }

  /** What the economic genesis gave it. */
  function Allocated(env: Env, a: Text): nat {
    if env.genesis.Some? then AllocatedIn(env.genesis.value.allocations, a) else 0
  }

  // ---- one transaction, one block ------------------------------------------

  lemma TransferEffect(acc: Accounts, from: Text, to: Text, v: u64, a: Text)
    requires Transfer(acc, from, to, v).Some?
    ensures Balance(Transfer(acc, from, to, v).value, a) ==
            Balance(acc, a) + (if a == to then v else 0) - (if a == from then v else 0)
  {
  }

  lemma {:induction false} StepEffect(rule: Rule, env: Env, reward: u64, acc: Accounts, tx: Tx, a: Text)
    requires Step(rule, env, reward, acc, tx).Some?
    ensures Balance(Step(rule, env, reward, acc, tx).value, a) ==
            Balance(acc, a) + (if tx.receiver == a then tx.amount else 0)
            - (if tx.sender == a && tx.sender != COINBASE_SENDER then tx.amount else 0)
  {
    if !IsCoinbase(tx) { TransferEffect(acc, tx.sender, tx.receiver, tx.amount, a); }
  }

  lemma {:induction false} RunEffect(rule: Rule, env: Env, reward: u64, acc: Accounts, txs: seq<Tx>, a: Text)
    requires Run(rule, env, reward, acc, txs).Some?
    ensures Balance(Run(rule, env, reward, acc, txs).value, a) == Balance(acc, a) + Received(txs, a) - Spent(txs, a)
    decreases |txs|
  {
    if txs != [] {
      var init := txs[..|txs| - 1];
      RunEffect(rule, env, reward, acc, init, a);
      StepEffect(rule, env, reward, Run(rule, env, reward, acc, init).value, txs[|txs| - 1], a);
    }
  }

  lemma {:induction false} CreditAllEffect(xs: seq<Allocation>, a: Text)
    requires CreditAll(map[], xs).Some?
    ensures Balance(CreditAll(map[], xs).value, a) == AllocatedIn(xs, a)
    decreases |xs|
  {
    if xs != [] { CreditAllEffect(xs[..|xs| - 1], a); }
  }

  lemma GenesisEffect(env: Env, a: Text)
    requires ValidEnv(env)
    ensures Balance(GenesisAccounts(env), a) == Allocated(env, a)
  {
    GenesisConserves(env);
    if env.genesis.Some? { CreditAllEffect(env.genesis.value.allocations, a); }
  }

  lemma BlockEffect(env: Env, s: State, b: Block, reward: u64, a: Text)
    requires ApplyBlock(env, s, b, reward).Some?
    ensures Balance(ApplyBlock(env, s, b, reward).value.accounts, a) == Balance(s.accounts, a) + Received(b.txs, a) - Spent(b.txs, a)
  {
    RunEffect(RuleOf(env), env, reward, s.accounts, b.txs, a);
  }

  // ---- whole chains --------------------------------------------------------

  lemma {:induction false} LedgerEffect(env: Env, ch: seq<Block>, a: Text)
    requires ValidEnv(env) && LedgerOf(env, ch).Some?
    ensures Balance(LedgerOf(env, ch).value.accounts, a) == Allocated(env, a) + ReceivedOn(ch, a) - SpentOn(ch, a)
    decreases |ch|
  {
    if |ch| <= 1 {
      GenesisEffect(env, a);
    } else {
      var prefix, b := ch[..|ch| - 1], ch[|ch| - 1];
      LedgerStep(env, ch);
      LedgerEffect(env, prefix, a);
      var s := LedgerOf(env, prefix).value;
      Accepted(env, prefix, b, s);
      BlockEffect(env, s, b, SnapshotReward(env, s).value, a);
    }
  }

  /**
   * On every valid chain an address holds its genesis allocations, plus all it was paid, minus all it
   * paid, whether the state was carried along in snapshots or replayed from genesis.
   */
  lemma BalanceIsNetEffect(env: Env, ch: seq<Block>, a: Text)
    requires ValidEnv(env) && ValidChain(env, ch)
    ensures LedgerOf(env, ch).Some? && Replay(env, ch).Some?
    ensures var held := Allocated(env, a) + ReceivedOn(ch, a) - SpentOn(ch, a);
            Balance(LedgerOf(env, ch).value.accounts, a) == held && Balance(Replay(env, ch).value.accounts, a) == held
  {
    ValidChainHasLedger(env, ch);
    LedgerEffect(env, ch, a);
  }

  // ---- two addresses -------------------------------------------------------

  /** One transfer moves its amount from the sender to the receiver and touches nobody else. */
  lemma TransferMoves(rule: Rule, env: Env, reward: u64, acc: Accounts, tx: Tx, other: Text)
    requires Step(rule, env, reward, acc, tx).Some? && tx.sender != COINBASE_SENDER && tx.sender != tx.receiver
    requires other != tx.sender && other != tx.receiver
    ensures var next := Step(rule, env, reward, acc, tx).value;
            && Balance(acc, tx.sender) >= tx.amount
            && Balance(next, tx.sender) == Balance(acc, tx.sender) - tx.amount
            && Balance(next, tx.receiver) == Balance(acc, tx.receiver) + tx.amount
            && Balance(next, other) == Balance(acc, other)
  {
    StepEffect(rule, env, reward, acc, tx, tx.sender);
    StepEffect(rule, env, reward, acc, tx, tx.receiver);
    StepEffect(rule, env, reward, acc, tx, other);
  }
}
