/** Sums of balances: no step creates or destroys units except the coinbase. */
module Conservation {
  import opened Base
  import opened Protocol
  import opened Ledger

  ghost function TotalBalance(a: Accounts): nat
    decreases |a|
  {
    if a == map[] then 0
    else
      var k :| k in a;
      a[k].balance + TotalBalance(a - {k})
  }

  lemma {:induction false} TotalSplit(a: Accounts, k: Text)
    requires k in a
    ensures TotalBalance(a) == a[k].balance + TotalBalance(a - {k})
    decreases |a|
  {
    var j :| j in a && TotalBalance(a) == a[j].balance + TotalBalance(a - {j});
    if j != k {
      TotalSplit(a - {j}, k);
      TotalSplit(a - {k}, j);
      assert a - {j} - {k} == a - {k} - {j};
    }
  }

  lemma TotalUpdate(a: Accounts, k: Text, x: Account)
    ensures TotalBalance(a[k := x]) == TotalBalance(a) - Balance(a, k) + x.balance
  {
    var b := a[k := x];
    TotalSplit(b, k);
    if k in a {
      TotalSplit(a, k);
      assert a - {k} == b - {k};
    } else {
      assert b - {k} == a;
    }
  }

  lemma BalanceAtMostTotal(a: Accounts, k: Text)
    ensures Balance(a, k) <= TotalBalance(a)
  {
    if k in a { TotalSplit(a, k); }
  }

  lemma CreditTotal(a: Accounts, k: Text, v: u64)
    ensures Credit(a, k, v).Some? ==> TotalBalance(Credit(a, k, v).value) == TotalBalance(a) + v
    ensures TotalBalance(a) + v <= MAX64 ==> Credit(a, k, v).Some?
  {
    BalanceAtMostTotal(a, k);
    if Credit(a, k, v).Some? { TotalUpdate(a, k, Account(Balance(a, k) + v, Nonce(a, k))); }
  }

  lemma DebitTotal(a: Accounts, k: Text, v: u64)
    ensures Debit(a, k, v).Some? ==> TotalBalance(Debit(a, k, v).value) == TotalBalance(a) - v
  {
    if Debit(a, k, v).Some? { TotalUpdate(a, k, Account(Balance(a, k) - v, Nonce(a, k))); }
  }

  /** A transfer keeps the total; below 2^64 units only an uncovered debit can stop it. */
  lemma TransferTotal(a: Accounts, from: Text, to: Text, v: u64)
    ensures Transfer(a, from, to, v).Some? ==> TotalBalance(Transfer(a, from, to, v).value) == TotalBalance(a)
    ensures TotalBalance(a) <= MAX64 ==> (Transfer(a, from, to, v).Some? <==> v <= Balance(a, from))
  {
    DebitTotal(a, from, v);
    if Debit(a, from, v).Some? { CreditTotal(Debit(a, from, v).value, to, v); }
  }

  lemma StepTotal(rule: Rule, env: Env, reward: u64, a: Accounts, tx: Tx)
    requires Step(rule, env, reward, a, tx).Some?
    ensures TotalBalance(Step(rule, env, reward, a, tx).value) == TotalBalance(a) + (if IsCoinbase(tx) then tx.amount else 0)
  {
    if IsCoinbase(tx) {
      CreditTotal(a, tx.receiver, tx.amount);
    } else {
      TransferTotal(a, tx.sender, tx.receiver, tx.amount);
      var b := Transfer(a, tx.sender, tx.receiver, tx.amount).value;
      TotalUpdate(b, tx.sender, Account(Balance(b, tx.sender), if rule.V2Rule? then tx.nonce + 1 else 0));
    }
  }

  /** A block's transactions raise the total by exactly its coinbase amounts. */
  lemma {:induction false} RunTotal(rule: Rule, env: Env, reward: u64, a: Accounts, txs: seq<Tx>)
    requires Run(rule, env, reward, a, txs).Some?
    ensures TotalBalance(Run(rule, env, reward, a, txs).value) == TotalBalance(a) + CoinbaseSum(txs)
  {
    if txs != [] {
      var init := txs[..|txs| - 1];
      RunTotal(rule, env, reward, a, init);
      StepTotal(rule, env, reward, Run(rule, env, reward, a, init).value, txs[|txs| - 1]);
    }
  }

  // ---- issuance ------------------------------------------------------------

  /** When every coinbase pays the reward, the coinbases sum to the reward times their number. */
  lemma {:induction false} CoinbaseSumIsReward(txs: seq<Tx>, reward: u64)
    requires forall i :: 0 <= i < |txs| && IsCoinbase(txs[i]) ==> txs[i].amount == reward
    ensures CoinbaseSum(txs) == reward * Coinbases(txs)
  {
    if txs != [] {
      var init := txs[..|txs| - 1];
      assert forall i :: 0 <= i < |init| ==> init[i] == txs[i];
      CoinbaseSumIsReward(init, reward);
      var n := Coinbases(init);
      assert reward * (n + 1) == reward * n + reward;
    }
  }

  /** Below 2^64 the overflow tests pass and both counters move by the coinbase sum. */
  lemma {:induction false} IssueExact(mined: u64, supply: u64, txs: seq<Tx>)
    ensures Issue(mined, supply, txs).Some? <==> mined + CoinbaseSum(txs) <= MAX64 && supply + CoinbaseSum(txs) <= MAX64
    ensures Issue(mined, supply, txs).Some? ==>
              Issue(mined, supply, txs).value == Issued(mined + CoinbaseSum(txs), supply + CoinbaseSum(txs))
  {
    if txs != [] { IssueExact(mined, supply, txs[..|txs| - 1]); }
  }

  lemma {:induction false} MinedInExact(total: u64, txs: seq<Tx>)
    requires forall i :: 0 <= i < |txs| ==> txs[i].sender != GENESIS_ALLOCATION_SENDER
    ensures MinedIn(total, txs) == if total + CoinbaseSum(txs) <= MAX64 then Some(total + CoinbaseSum(txs)) else None
  {
    if txs != [] {
      var init := txs[..|txs| - 1];
      assert forall i :: 0 <= i < |init| ==> init[i] == txs[i];
      MinedInExact(total, init);
      ReservedSendersAreNoAddresses();
    }
  }

  // ---- genesis -------------------------------------------------------------

  lemma {:induction false} CreditAllTotal(xs: seq<Allocation>)
    requires AllocationTotal(xs) <= MAX64
    ensures CreditAll(map[], xs).Some? && TotalBalance(CreditAll(map[], xs).value) == AllocationTotal(xs)
  {
    if xs != [] {
      CreditAllTotal(xs[..|xs| - 1]);
      CreditTotal(CreditAll(map[], xs[..|xs| - 1]).value, xs[|xs| - 1].recipient, xs[|xs| - 1].amount);
    }
  }

  /** The genesis balances sum to the genesis supply. */
  lemma GenesisConserves(env: Env)
    requires ValidEnv(env)
    ensures TotalBalance(GenesisAccounts(env)) == GenesisSupply(env)
    ensures env.genesis.Some? ==> CreditAll(map[], env.genesis.value.allocations) == Some(GenesisAccounts(env))
  {
    if env.genesis.Some? { CreditAllTotal(env.genesis.value.allocations); }
  }

  // ---- runs stop at the first failure ---------------------------------------

  lemma {:induction false} RunPrefix(rule: Rule, env: Env, reward: u64, a: Accounts, txs: seq<Tx>, i: nat)
    requires i <= |txs| && Run(rule, env, reward, a, txs).Some?
    ensures Run(rule, env, reward, a, txs[..i]).Some?
  {
    if i == |txs| {
      assert txs[..i] == txs;
    } else {
      RunPrefix(rule, env, reward, a, txs[..|txs| - 1], i);
      assert txs[..|txs| - 1][..i] == txs[..i];
    }
  }

  lemma {:induction false} CoinbaseSumMonotone(txs: seq<Tx>, i: nat)
    requires i <= |txs|
    ensures CoinbaseSum(txs[..i]) <= CoinbaseSum(txs)
  {
    if i == |txs| {
      assert txs[..i] == txs;
    } else {
      CoinbaseSumMonotone(txs[..|txs| - 1], i);
      assert txs[..|txs| - 1][..i] == txs[..i];
    }
  }

  lemma {:induction false} IssuePrefix(mined: u64, supply: u64, txs: seq<Tx>, i: nat)
    requires i <= |txs| && Issue(mined, supply, txs).Some?
    ensures Issue(mined, supply, txs[..i]).Some?
  {
    if i == |txs| {
      assert txs[..i] == txs;
    } else {
      IssuePrefix(mined, supply, txs[..|txs| - 1], i);
      assert txs[..|txs| - 1][..i] == txs[..i];
    }
  }

}
