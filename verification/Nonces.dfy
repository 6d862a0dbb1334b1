/** Replay protection: the nonces and identities of the transactions on a valid chain. (internal/chain/v2.go, internal/chain/chain.go) */
module Nonces {
  import opened Base
  import opened Protocol
  import opened Rules
  import opened Ledger
  import opened Conservation
  import opened Equivalence

  // ---- nonces --------------------------------------------------------------

  /** lo, lo + 1, ..., hi - 1. */
  function Range(lo: nat, hi: nat): (r: seq<nat>)
    ensures |r| == (if lo <= hi then hi - lo else 0)
    ensures forall i :: 0 <= i < |r| ==> r[i] == lo + i
  {
    if lo >= hi then [] else Range(lo, hi - 1) + [hi - 1]
  }

  function Sends(tx: Tx, a: Text): bool { !IsCoinbase(tx) && tx.sender == a }

  /** The nonces an address used in a list of transactions, in order. */
  function NoncesIn(txs: seq<Tx>, a: Text): seq<nat> {
    if txs == [] then []
    else NoncesIn(txs[..|txs| - 1], a) + (if Sends(txs[|txs| - 1], a) then [txs[|txs| - 1].nonce] else [])
  }

  /** And above genesis on a chain. */
  function NoncesOn(ch: seq<Block>, a: Text): seq<nat> {
    if |ch| <= 1 then [] else NoncesOn(ch[..|ch| - 1], a) + NoncesIn(ch[|ch| - 1].txs, a)
  }

  lemma RangeJoin(lo: nat, mid: nat, hi: nat)
    requires lo <= mid <= hi
    ensures Range(lo, mid) + Range(mid, hi) == Range(lo, hi)
  {
  }

  lemma TransferNonces(a: Accounts, from: Text, to: Text, v: u64, k: Text)
    requires Transfer(a, from, to, v).Some?
    ensures Nonce(Transfer(a, from, to, v).value, k) == Nonce(a, k)
  {
  }

  lemma StepNonces(env: Env, reward: u64, a: Accounts, tx: Tx, k: Text)
    requires Step(V2Rule, env, reward, a, tx).Some?
    ensures var n := Nonce(Step(V2Rule, env, reward, a, tx).value, k);
            if Sends(tx, k) then tx.nonce == Nonce(a, k) && n == Nonce(a, k) + 1 else n == Nonce(a, k)
  {
    if !IsCoinbase(tx) { TransferNonces(a, tx.sender, tx.receiver, tx.amount, k); }
  }

  /** A block uses the next nonces of each sender, one after the other. */
  lemma {:induction false} RunNonces(env: Env, reward: u64, a: Accounts, txs: seq<Tx>, k: Text)
    requires Run(V2Rule, env, reward, a, txs).Some?
    ensures Nonce(a, k) <= Nonce(Run(V2Rule, env, reward, a, txs).value, k)
    ensures NoncesIn(txs, k) == Range(Nonce(a, k), Nonce(Run(V2Rule, env, reward, a, txs).value, k))
    decreases |txs|
  {
    if txs != [] {
      var init, tx := txs[..|txs| - 1], txs[|txs| - 1];
      RunNonces(env, reward, a, init, k);
      var b := Run(V2Rule, env, reward, a, init).value;
      StepNonces(env, reward, b, tx, k);
    }
  }

  lemma {:induction false} CreditAllNonces(xs: seq<Allocation>, k: Text)
    requires CreditAll(map[], xs).Some?
    ensures Nonce(CreditAll(map[], xs).value, k) == 0
    decreases |xs|
  {
    if xs != [] { CreditAllNonces(xs[..|xs| - 1], k); }
  }

  lemma GenesisNonces(env: Env, k: Text)
    requires ValidEnv(env)
    ensures Nonce(GenesisAccounts(env), k) == 0
  {
    GenesisConserves(env);
    if env.genesis.Some? { CreditAllNonces(env.genesis.value.allocations, k); }
  }

  lemma BlockNonces(env: Env, s: State, b: Block, reward: u64, k: Text)
    requires env.version >= 2 && ApplyBlock(env, s, b, reward).Some?
    ensures var t := ApplyBlock(env, s, b, reward).value;
            Nonce(s.accounts, k) <= Nonce(t.accounts, k) && NoncesIn(b.txs, k) == Range(Nonce(s.accounts, k), Nonce(t.accounts, k))
  {
    RunNonces(env, reward, s.accounts, b.txs, k);
  }

  lemma {:induction false} LedgerNonces(env: Env, ch: seq<Block>, k: Text)
    requires ValidEnv(env) && env.version >= 2 && LedgerOf(env, ch).Some?
    ensures NoncesOn(ch, k) == Range(0, Nonce(LedgerOf(env, ch).value.accounts, k))
    decreases |ch|
  {
    if |ch| <= 1 {
      GenesisNonces(env, k);
    } else {
      var prefix, b := ch[..|ch| - 1], ch[|ch| - 1];
      LedgerStep(env, ch);
      LedgerNonces(env, prefix, k);
      var s := LedgerOf(env, prefix).value;
      Accepted(env, prefix, b, s);
      BlockNonces(env, s, b, SnapshotReward(env, s).value, k);
      RangeJoin(0, Nonce(s.accounts, k), Nonce(LedgerOf(env, ch).value.accounts, k));
    }
  }

  /**
   * On every valid V2 chain the confirmed transactions of a sender carry the nonces 0, 1, 2, ... in
   * chain order, and the next nonce of the ledger is their number.
   */
  lemma NoncesCountUp(env: Env, ch: seq<Block>, k: Text)
    requires ValidEnv(env) && env.version >= 2 && ValidChain(env, ch)
    ensures LedgerOf(env, ch).Some?
    ensures var n := Nonce(LedgerOf(env, ch).value.accounts, k);
            |NoncesOn(ch, k)| == n && forall i :: 0 <= i < n ==> NoncesOn(ch, k)[i] == i
  {
    ValidChainHasLedger(env, ch);
    LedgerNonces(env, ch, k);
  }

  // ---- identities ----------------------------------------------------------

  /** Every transaction identity on a chain, in order. */
  function AllIds(ch: seq<Block>): seq<Text> {
    if ch == [] then [] else AllIds(ch[..|ch| - 1]) + Ids(ch[|ch| - 1].txs)
  }

  lemma {:induction false} AllIdsSet(ch: seq<Block>, x: Text)
    ensures x in AllIds(ch) <==> x in ChainIds(ch)
    decreases |ch|
  {
    if ch != [] {
      AllIdsSet(ch[..|ch| - 1], x);
      var txs := ch[|ch| - 1].txs;
      assert x in Ids(txs) <==> x in IdSet(txs) by {
        if x in Ids(txs) { var i :| 0 <= i < |txs| && Ids(txs)[i] == x; }
        if x in IdSet(txs) { var i :| 0 <= i < |txs| && IdentityHash(txs[i]) == x; assert Ids(txs)[i] == x; }
      }
    }
  }

  lemma FreshDistinct(seen: set<Text>, txs: seq<Tx>)
    requires Fresh(seen, txs)
    ensures Distinct(Ids(txs)) && forall x :: x in Ids(txs) ==> x !in seen
  {
    forall i, j | 0 <= i < j < |txs|
      ensures Ids(txs)[i] != Ids(txs)[j]
    {
      assert FreshAt(seen, txs, j);
      assert txs[..j][i] == txs[i];
    }
    forall x | x in Ids(txs)
      ensures x !in seen
    {
      var i :| 0 <= i < |txs| && Ids(txs)[i] == x;
      assert FreshAt(seen, txs, i);
    }
  }

  /**
   * On a valid chain no transaction identity repeats: only the genesis block's own list, which
   * validation does not read, could hold one twice.
   */
  lemma {:induction false} IdentitiesDistinct(env: Env, ch: seq<Block>)
    requires ValidEnv(env) && ValidChain(env, ch)
    ensures Distinct(AllIds(ch)) <==> Distinct(Ids(ch[0].txs))
    decreases |ch|
  {
    if |ch| == 1 {
      OneBlockIds(ch);
    } else {
      var prefix, b := ch[..|ch| - 1], ch[|ch| - 1];
      Unextend(env, ch);
      IdentitiesDistinct(env, prefix);
      FreshBlock(env, prefix, b);
      DistinctJoin(AllIds(prefix), Ids(b.txs));
    }
  }

  lemma OneBlockIds(ch: seq<Block>)
    requires |ch| == 1
    ensures AllIds(ch) == Ids(ch[0].txs)
  {
    assert ch[..|ch| - 1] == [];
  }

  lemma FreshBlock(env: Env, prefix: seq<Block>, b: Block)
    requires |prefix| > 0 && FullNext(env, b, prefix)
    ensures Distinct(Ids(b.txs)) && forall x :: x in Ids(b.txs) ==> x !in AllIds(prefix)
  {
    FreshDistinct(ChainIds(prefix), b.txs);
    forall x | x in Ids(b.txs)
      ensures x !in AllIds(prefix)
    {
      AllIdsSet(prefix, x);
    }
  }
}
