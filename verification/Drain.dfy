/** Executing what was selected: every pending transaction in its turn succeeds and leaves a pool that still fits. */
module Drain {
  import opened Base
  import opened Protocol
  import opened Ledger
  import opened Conservation
  import opened Mempool
  import opened Selection

  function IdsOf(xs: seq<Tx>): set<Text> { set i | 0 <= i < |xs| :: xs[i].txId }

  /** Removing an entry whose turn it is. */
  lemma RemoveTurn(p: Pending, acc: Accounts, next: Accounts, tx: Tx)
    requires Contiguous(p, acc) && tx.txId in p && p[tx.txId] == tx && tx.nonce == Nonce(acc, tx.sender)
    requires forall k :: Nonce(next, k) == if k == tx.sender then tx.nonce + 1 else Nonce(acc, k)
    ensures Contiguous(p - {tx.txId}, next)
  {
    var q := p - {tx.txId};
    forall k | k in q
      ensures NonceOk(q, next, k)
    {
      TurnKeepsNonce(p, acc, next, tx, k);
    }
    forall j, k | j in q && k in q
      ensures Apart(q, j, k)
    {
      assert Apart(p, j, k);
    }
  }

  lemma TurnKeepsNonce(p: Pending, acc: Accounts, next: Accounts, tx: Tx, k: Text)
    requires Contiguous(p, acc) && tx.txId in p && p[tx.txId] == tx && tx.nonce == Nonce(acc, tx.sender)
    requires forall k :: Nonce(next, k) == if k == tx.sender then tx.nonce + 1 else Nonce(acc, k)
    requires k in p && k != tx.txId
    ensures NonceOk(p - {tx.txId}, next, k)
  {
    var q := p - {tx.txId};
    var u := p[k];
    assert NonceOk(p, acc, k) && Apart(p, k, tx.txId);
    if Nonce(next, u.sender) < u.nonce {
      var j :| j in p && p[j].sender == u.sender && p[j].nonce == u.nonce - 1;
      assert j in q;
      assert HasNonce(q, u.sender, u.nonce - 1);
    }
  }

  lemma RemoveCovered(p: Pending, acc: Accounts, next: Accounts, tx: Tx)
    requires Covered(p, acc) && tx.txId in p && p[tx.txId] == tx
    requires forall a :: Balance(next, a) >= Balance(acc, a) - Share(tx, a)
    ensures Covered(p - {tx.txId}, next)
  {
    var q := p - {tx.txId};
    forall a
      ensures Reserved(q, a) <= Balance(next, a)
    {
      ReservedSplit(p, tx.txId, a);
    }
  }

  lemma RemoveEntries(c: Crypto, networkId: Text, p: Pending, k: Text)
    requires Entries(c, networkId, p)
    ensures Entries(c, networkId, p - {k})
  {
    var q := p - {k};
    forall j | j in q
      ensures EntryOk(c, networkId, q, j)
    {
      assert EntryOk(c, networkId, p, j);
    }
  }

  lemma TransferBalances(acc: Accounts, from: Text, to: Text, v: u64, a: Text)
    requires Transfer(acc, from, to, v).Some?
    ensures Balance(Transfer(acc, from, to, v).value, a) >= Balance(acc, a) - (if a == from then v else 0)
    ensures Nonce(Transfer(acc, from, to, v).value, a) == Nonce(acc, a)
  {
  }

  /** One pending transaction in its turn. */
  lemma StepDrains(env: Env, reward: u64, p: Pending, acc: Accounts, tx: Tx)
    requires PoolOk(env.crypto, env.networkId, p, acc) && TotalBalance(acc) <= MAX64
    requires tx.txId in p && p[tx.txId] == tx && tx.nonce == Nonce(acc, tx.sender)
    ensures Step(V2Rule, env, reward, acc, tx).Some?
    ensures var next := Step(V2Rule, env, reward, acc, tx).value;
            && PoolOk(env.crypto, env.networkId, p - {tx.txId}, next) && TotalBalance(next) == TotalBalance(acc)
            && forall k :: Nonce(next, k) == if k == tx.sender then tx.nonce + 1 else Nonce(acc, k)
  {
    assert EntryOk(env.crypto, env.networkId, p, tx.txId);
    ReservedSplit(p, tx.txId, tx.sender);
    assert Reserved(p, tx.sender) <= Balance(acc, tx.sender);
    TransferTotal(acc, tx.sender, tx.receiver, tx.amount);
    var moved := Transfer(acc, tx.sender, tx.receiver, tx.amount).value;
    var next := SetNonce(moved, tx.sender, tx.nonce + 1);
    assert Step(V2Rule, env, reward, acc, tx) == Some(next);
    forall a
      ensures Balance(next, a) >= Balance(acc, a) - Share(tx, a)
      ensures Nonce(next, a) == if a == tx.sender then tx.nonce + 1 else Nonce(acc, a)
    {
      TransferBalances(acc, tx.sender, tx.receiver, tx.amount, a);
    }
    StepTotal(V2Rule, env, reward, acc, tx);
    RemoveTurn(p, acc, next, tx);
    RemoveCovered(p, acc, next, tx);
    RemoveEntries(env.crypto, env.networkId, p, tx.txId);
  }

  lemma Middle(txs: seq<Tx>)
    requires |txs| > 1
    ensures txs[..|txs| - 1][1..] == txs[1..][..|txs[1..]| - 1] && txs[..|txs| - 1][0] == txs[0]
    ensures txs[1..][|txs[1..]| - 1] == txs[|txs| - 1]
  {
  }

  lemma {:induction false} RunCons(rule: Rule, env: Env, reward: u64, acc: Accounts, txs: seq<Tx>)
    requires txs != []
    ensures Run(rule, env, reward, acc, txs) ==
            match Step(rule, env, reward, acc, txs[0])
            case None => None
            case Some(next) => Run(rule, env, reward, next, txs[1..])
    decreases |txs|
  {
    var init := txs[..|txs| - 1];
    if init == [] {
      assert txs[1..] == [];
    } else {
      Middle(txs);
      RunCons(rule, env, reward, acc, init);
    }
  }

  lemma IdsCons(xs: seq<Tx>)
    requires xs != []
    ensures IdsOf(xs) == {xs[0].txId} + IdsOf(xs[1..])
  {
    assert forall i :: 0 <= i < |xs[1..]| ==> xs[1..][i] == xs[i + 1];
    forall k | k in IdsOf(xs)
      ensures k in {xs[0].txId} + IdsOf(xs[1..])
    {
      var i :| 0 <= i < |xs| && xs[i].txId == k;
      if i > 0 { assert xs[1..][i - 1].txId == k; }
    }
  }

  /** A drawn and sequenced list always executes, and the rest of the pool fits the new ledger. */
  lemma {:induction false} RunDrains(env: Env, reward: u64, p: Pending, acc: Accounts, xs: seq<Tx>)
    requires PoolOk(env.crypto, env.networkId, p, acc) && TotalBalance(acc) <= MAX64
    requires Drawn(p, xs) && Sequenced(acc, xs)
    ensures Run(V2Rule, env, reward, acc, xs).Some?
    ensures PoolOk(env.crypto, env.networkId, p - IdsOf(xs), Run(V2Rule, env, reward, acc, xs).value)
    decreases |xs|
  {
    if xs == [] {
      assert p - IdsOf(xs) == p;
    } else {
      var tx := xs[0];
      StepDrains(env, reward, p, acc, tx);
      var next := Step(V2Rule, env, reward, acc, tx).value;
      assert forall i :: 0 <= i < |xs[1..]| ==> xs[1..][i] == xs[i + 1];
      SameTurns(SetNonce(acc, tx.sender, tx.nonce + 1), next, xs[1..]);
      RunDrains(env, reward, p - {tx.txId}, next, xs[1..]);
      RunCons(V2Rule, env, reward, acc, xs);
      IdsCons(xs);
      assert p - {tx.txId} - IdsOf(xs[1..]) == p - IdsOf(xs);
    }
  }

  /** A credit leaves room for everything pending. */
  lemma CreditKeepsPool(c: Crypto, networkId: Text, p: Pending, acc: Accounts, k: Text, v: u64)
    requires PoolOk(c, networkId, p, acc) && Credit(acc, k, v).Some?
    ensures PoolOk(c, networkId, p, Credit(acc, k, v).value)
  {
    var next := Credit(acc, k, v).value;
    forall j | j in p
      ensures NonceOk(p, next, j)
    {
      assert NonceOk(p, acc, j);
    }
    forall a
      ensures Reserved(p, a) <= Balance(next, a)
    {
      assert Reserved(p, a) <= Balance(acc, a);
    }
  }

  /** Admission keeps the pool in order. */
  lemma AddKeepsPool(c: Crypto, networkId: Text, p: Pending, max: nat, acc: Accounts, tx: Tx, expected: u64)
    requires PoolOk(c, networkId, p, acc) && FirstFree(p, tx.sender, Nonce(acc, tx.sender), expected)
    requires Admissible(c, networkId, p, max, tx, expected, Balance(acc, tx.sender))
    ensures PoolOk(c, networkId, p[tx.txId := tx], acc)
  {
    var q := p[tx.txId := tx];
    forall k | k in q
      ensures EntryOk(c, networkId, q, k) && NonceOk(q, acc, k)
    {
      AddKeepsEntry(c, networkId, p, acc, tx, expected, k);
    }
    forall j, k | j in q && k in q
      ensures Apart(q, j, k)
    {
      if j != tx.txId && k != tx.txId { assert Apart(p, j, k); }
    }
    forall a
      ensures Reserved(q, a) <= Balance(acc, a)
    {
      ReservedAdd(p, tx, a);
      assert Reserved(p, a) <= Balance(acc, a);
    }
  }

  lemma AddKeepsEntry(c: Crypto, networkId: Text, p: Pending, acc: Accounts, tx: Tx, expected: u64, k: Text)
    requires Entries(c, networkId, p) && Contiguous(p, acc) && FirstFree(p, tx.sender, Nonce(acc, tx.sender), expected)
    requires ValidV2(c, networkId, tx) && tx.nonce == expected && tx.nonce != MAX64 && tx.txId !in p
    requires k in p || k == tx.txId
    ensures var q := p[tx.txId := tx]; EntryOk(c, networkId, q, k) && NonceOk(q, acc, k)
  {
    var q := p[tx.txId := tx];
    if k == tx.txId {
      if Nonce(acc, tx.sender) < tx.nonce {
        assert HasNonce(p, tx.sender, tx.nonce - 1);
        HasMore(p, tx, tx.sender, tx.nonce - 1);
      }
    } else {
      assert EntryOk(c, networkId, p, k) && NonceOk(p, acc, k);
      if Nonce(acc, p[k].sender) < p[k].nonce { HasMore(p, tx, p[k].sender, p[k].nonce - 1); }
    }
  }

  lemma HasMore(p: Pending, tx: Tx, a: Text, n: int)
    requires HasNonce(p, a, n) && tx.txId !in p
    ensures HasNonce(p[tx.txId := tx], a, n)
  {
    var j :| j in p && p[j].sender == a && p[j].nonce == n;
    assert j in p[tx.txId := tx];
  }
}
