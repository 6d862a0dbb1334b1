/** The rules of the Python reference node for a next block in one place, without recomputation. (blockchain/validators.py) */
module ReferenceLaw {
  import opened Base
  import opened Protocol
  import opened Retarget
  import opened BalanceCache
  import opened ReferenceRules
  import Rules
  import Merkle

  // ---- what a block must say -----------------------------------------------

  predicate OnlyCoinbase(txs: seq<Tx>, c: nat) {
    c < |txs| && forall j :: 0 <= j < |txs| ==> (txs[j].sender == COINBASE_SENDER <==> j == c)
  }

  /** What the transfers of a list move to an address. */
  function Moved(txs: seq<Tx>, a: Text): int
    decreases |txs|
  {
    if txs == [] then 0
    else
      var tx := txs[|txs| - 1];
      Moved(txs[..|txs| - 1], a)
      + (if tx.sender == COINBASE_SENDER then 0 else (if tx.receiver == a then tx.amount else 0) - (if tx.sender == a then tx.amount else 0))
  }

  /** The block's coinbase is credited first, wherever it stands; then each transfer is valid and can be paid in its turn. */
  predicate Payable(prefix: seq<Block>, txs: seq<Tx>, c: nat, j: nat)
    requires c < |txs| && j < |txs|
  {
    var tx := txs[j];
    tx.sender == COINBASE_SENDER ||
    tx.amount <= ChainDelta(prefix, tx.sender) + (if txs[c].receiver == tx.sender then txs[c].amount else 0) + Moved(txs[..j], tx.sender)
  }

  predicate LawfulHeader(p: Policy, prefix: seq<Block>, b: Block)
    requires 0 <= p.config.minDifficulty && |prefix| > 0
  {
    var parent := prefix[|prefix| - 1];
    && b.header.index == |prefix| && b.header.previousHash == parent.hash && b.header.timestamp > parent.header.timestamp
    && b.header.difficulty == DifficultyAfter(p, prefix)
    && b.hash == p.crypto.headerHash(b.header) && b.header.difficulty <= |b.hash|
    && (forall i :: 0 <= i < b.header.difficulty ==> b.hash[i] == 48)
    && b.header.merkleRoot == Merkle.MerkleRoot(p.crypto, TxHashes(b.txs))
  }

  /** The amounts are those of the chain's transactions; what is left to issue is the maximum less what was minted. */
  predicate LawfulMoney(p: Policy, prefix: seq<Block>, txs: seq<Tx>, c: nat) {
    && OnlyCoinbase(txs, c)
    && txs[c].amount == (if p.reward <= p.maxSupply - ChainMinted(prefix) then p.reward else p.maxSupply - ChainMinted(prefix))
    && txs[c].amount > 0
    && (forall j :: 0 <= j < |txs| ==> p.valid(txs[j]))
    && forall j :: 0 <= j < |txs| ==> Payable(prefix, txs, c, j)
  }

  ghost predicate LawfulNext(p: Policy, prefix: seq<Block>, b: Block)
    requires 0 <= p.config.minDifficulty && |prefix| > 0
  {
    LawfulHeader(p, prefix, b) && exists c :: LawfulMoney(p, prefix, b.txs, c)
  }

  // ---- transfers -----------------------------------------------------------

  lemma {:induction false} MovedIsDelta(txs: seq<Tx>, a: Text)
    ensures Moved(txs, a) == TxsDelta(txs, a) - CoinDelta(CoinbasesOf(txs), a)
    decreases |txs|
  {
    if txs != [] {
      MovedIsDelta(txs[..|txs| - 1], a);
      CoinDeltaSnoc(txs[..|txs| - 1], txs, a);
    }
  }

  predicate PaidAt(p: Policy, m: map<Text, int>, txs: seq<Tx>, j: nat)
    requires j < |txs|
  {
    txs[j].sender == COINBASE_SENDER || (p.valid(txs[j]) && txs[j].amount <= Held(m, txs[j].sender) + Moved(txs[..j], txs[j].sender))
  }

  lemma PaidDown(p: Policy, m: map<Text, int>, txs: seq<Tx>, n: nat)
    requires n < |txs|
    ensures (forall j :: 0 <= j < n + 1 ==> PaidAt(p, m, txs, j)) <==> (forall j :: 0 <= j < n ==> PaidAt(p, m, txs, j)) && PaidAt(p, m, txs, n)
  {
  }

  lemma TransferLaw(p: Policy, m: map<Text, int>, txs: seq<Tx>, n: nat)
    requires n < |txs| && Transfers(p, m, txs[..n]).Some?
    ensures Transfers(p, m, txs[..n + 1]).Some? <==> PaidAt(p, m, txs, n)
  {
    Extend(txs, n);
    TransfersHold(p, m, txs[..n], txs[n].sender);
    MovedIsDelta(txs[..n], txs[n].sender);
  }

  lemma {:induction false} TransfersLaw(p: Policy, m: map<Text, int>, txs: seq<Tx>, n: nat)
    requires n <= |txs|
    ensures Transfers(p, m, txs[..n]).Some? <==> forall j :: 0 <= j < n ==> PaidAt(p, m, txs, j)
    decreases n
  {
    if n > 0 {
      TransfersLaw(p, m, txs, n - 1);
      Extend(txs, n - 1);
      PaidDown(p, m, txs, n - 1);
      if Transfers(p, m, txs[..n - 1]).Some? { TransferLaw(p, m, txs, n - 1); }
    }
  }

  // ---- one coinbase --------------------------------------------------------

  lemma {:induction false} NoCoinbases(txs: seq<Tx>)
    ensures CoinbasesOf(txs) == [] <==> forall j :: 0 <= j < |txs| ==> txs[j].sender != COINBASE_SENDER
    decreases |txs|
  {
    if txs != [] {
      var init := txs[..|txs| - 1];
      NoCoinbases(init);
      assert forall j :: 0 <= j < |init| ==> init[j] == txs[j];
      if txs[|txs| - 1].sender == COINBASE_SENDER { LastOf(CoinbasesOf(init), txs[|txs| - 1]); }
    }
  }

  lemma {:induction false} OnlyCollected(txs: seq<Tx>, c: nat)
    requires OnlyCoinbase(txs, c)
    ensures CoinbasesOf(txs) == [txs[c]]
    decreases |txs|
  {
    var init := txs[..|txs| - 1];
    assert forall j :: 0 <= j < |init| ==> init[j] == txs[j];
    if c == |txs| - 1 { NoCoinbases(init); } else { OnlyCollected(init, c); }
  }

  lemma {:induction false} CollectedOnly(txs: seq<Tx>) returns (c: nat)
    requires |CoinbasesOf(txs)| == 1
    ensures OnlyCoinbase(txs, c)
    decreases |txs|
  {
    var init := txs[..|txs| - 1];
    assert forall j :: 0 <= j < |init| ==> init[j] == txs[j];
    if txs[|txs| - 1].sender == COINBASE_SENDER {
      NoCoinbases(init);
      c := |txs| - 1;
    } else {
      c := CollectedOnly(init);
    }
  }

  // ---- the money of one block ----------------------------------------------

  /** The recomputed state as sums over the chain's transactions. */
  ghost predicate Recomputed(p: Policy, prefix: seq<Block>, s: Monetary) {
    && StateFromChain(p, prefix) == Some(s)
    && s.supply == ChainMinted(prefix)
    && forall a {:trigger Held(s.balances, a)} :: Held(s.balances, a) == ChainDelta(prefix, a)
  }

  lemma RecomputedIsNetEffect(p: Policy, prefix: seq<Block>)
    requires StateFromChain(p, prefix).Some? && Indexed(prefix) && (|prefix| > 0 ==> Still(prefix[0]))
    ensures Recomputed(p, prefix, StateFromChain(p, prefix).value)
  {
    SupplyIsMinted(p, prefix);
    forall a
      ensures Held(StateFromChain(p, prefix).value.balances, a) == ChainDelta(prefix, a)
    {
      StateIsNetEffect(p, prefix, a);
    }
  }

  lemma PayableIsPaid(p: Policy, prefix: seq<Block>, s: Monetary, txs: seq<Tx>, c: nat)
    requires Recomputed(p, prefix, s) && c < |txs| && forall j :: 0 <= j < |txs| ==> p.valid(txs[j])
    ensures (forall j :: 0 <= j < |txs| ==> Payable(prefix, txs, c, j)) <==>
            forall j :: 0 <= j < |txs| ==> PaidAt(p, Adjusted(s.balances, txs[c].receiver, txs[c].amount), txs, j)
  {
    forall j | 0 <= j < |txs|
      ensures Payable(prefix, txs, c, j) <==> PaidAt(p, Adjusted(s.balances, txs[c].receiver, txs[c].amount), txs, j)
    {
      CoinHeld(s.balances, txs[c], txs[j].sender);
      assert Held(s.balances, txs[j].sender) == ChainDelta(prefix, txs[j].sender);
    }
  }

  lemma CoinHeld(m: map<Text, int>, coin: Tx, a: Text)
    ensures Held(Adjusted(m, coin.receiver, coin.amount), a) == Held(m, a) + (if coin.receiver == a then coin.amount else 0)
  {
  }

  /** A block's money passes exactly when it is lawful. */
  lemma MoneyLaw(p: Policy, prefix: seq<Block>, s: Monetary, txs: seq<Tx>, c: nat)
    requires Recomputed(p, prefix, s) && OnlyCoinbase(txs, c)
    ensures LawfulMoney(p, prefix, txs, c) <==>
            && AllAccepted(p, txs) && BlockState(p, s, txs).Some?
            && Min(p.reward, p.maxSupply - s.supply) > 0 && CoinbasesOf(txs)[0].amount == Min(p.reward, p.maxSupply - s.supply)
  {
    OnlyCollected(txs, c);
    var m := Adjusted(s.balances, txs[c].receiver, txs[c].amount);
    TransfersLaw(p, m, txs, |txs|);
    WholeSlice(txs);
    if AllAccepted(p, txs) { PayableIsPaid(p, prefix, s, txs, c); }
  }

  // ---- the law -------------------------------------------------------------

  lemma StateAfter(p: Policy, prefix: seq<Block>, b: Block, s: Monetary)
    requires StateFromChain(p, prefix) == Some(s) && b.header.index != 0
    ensures StateFromChain(p, prefix + [b]) == BlockState(p, s, b.txs)
  {
    LastOf(prefix, b);
  }

  lemma HeaderLaw(p: Policy, prefix: seq<Block>, b: Block)
    requires 0 <= p.config.minDifficulty && |prefix| > 0 && prefix[|prefix| - 1].header.index == |prefix| - 1
    ensures LawfulHeader(p, prefix, b) <==>
            HeaderFollows(p, prefix, b) && Merkle.MerkleRoot(p.crypto, TxHashes(b.txs)) == b.header.merkleRoot
  {
  }

  /** Over a valid chain from a genesis that moves nothing, validation accepts exactly the lawful blocks. */
  lemma NextIsLawful(p: Policy, prefix: seq<Block>, b: Block)
    requires 0 <= p.config.minDifficulty && ValidReference(p, prefix) && prefix[0].header.index == 0 && Still(prefix[0])
    ensures ValidNext(p, prefix, b) <==> LawfulNext(p, prefix, b)
  {
    ValidIsRecomputed(p, prefix);
    HeaderLaw(p, prefix, b);
    if ValidNext(p, prefix, b) { ValidIsLawful(p, prefix, b); }
    if LawfulNext(p, prefix, b) { LawfulIsValid(p, prefix, b); }
  }

  lemma ValidIsRecomputed(p: Policy, prefix: seq<Block>)
    requires 0 <= p.config.minDifficulty && ValidReference(p, prefix) && prefix[0].header.index == 0 && Still(prefix[0])
    ensures StateFromChain(p, prefix).Some? && Recomputed(p, prefix, StateFromChain(p, prefix).value)
    ensures prefix[|prefix| - 1].header.index == |prefix| - 1
  {
    forall i | 0 <= i < |prefix|
      ensures prefix[i].header.index == i
    {
      ValidIndexed(p, prefix, i);
    }
    RecomputedIsNetEffect(p, prefix);
  }

  lemma ValidIsLawful(p: Policy, prefix: seq<Block>, b: Block)
    requires 0 <= p.config.minDifficulty && ValidNext(p, prefix, b)
    requires Recomputed(p, prefix, StateFromChain(p, prefix).value) && prefix[|prefix| - 1].header.index == |prefix| - 1
    ensures LawfulNext(p, prefix, b)
  {
    var s := StateFromChain(p, prefix).value;
    HeaderLaw(p, prefix, b);
    StateAfter(p, prefix, b, s);
    var c := CollectedOnly(b.txs);
    MoneyLaw(p, prefix, s, b.txs, c);
  }

  lemma LawfulIsValid(p: Policy, prefix: seq<Block>, b: Block)
    requires 0 <= p.config.minDifficulty && |prefix| > 0 && LawfulNext(p, prefix, b) && StateFromChain(p, prefix).Some?
    requires Recomputed(p, prefix, StateFromChain(p, prefix).value) && prefix[|prefix| - 1].header.index == |prefix| - 1
    ensures ValidNext(p, prefix, b)
  {
    var s := StateFromChain(p, prefix).value;
    HeaderLaw(p, prefix, b);
    StateAfter(p, prefix, b, s);
    var c :| LawfulMoney(p, prefix, b.txs, c);
    MoneyPasses(p, prefix, s, b.txs, c);
    LawfulIsStructured(p, prefix, b, c);
  }

  lemma MoneyPasses(p: Policy, prefix: seq<Block>, s: Monetary, txs: seq<Tx>, c: nat)
    requires Recomputed(p, prefix, s) && LawfulMoney(p, prefix, txs, c)
    ensures BlockState(p, s, txs).Some? && Min(p.reward, p.maxSupply - s.supply) == txs[c].amount > 0
  {
    MoneyLaw(p, prefix, s, txs, c);
    OnlyCollected(txs, c);
  }

  lemma {:induction false} MintedIsPositive(txs: seq<Tx>)
    ensures Minted(txs) >= 0
    decreases |txs|
  {
    if txs != [] { MintedIsPositive(txs[..|txs| - 1]); }
  }

  lemma {:induction false} ChainMintedIsPositive(ch: seq<Block>)
    ensures ChainMinted(ch) >= 0
    decreases |ch|
  {
    if ch != [] {
      ChainMintedIsPositive(ch[..|ch| - 1]);
      MintedIsPositive(ch[|ch| - 1].txs);
    }
  }

  lemma LawfulIsStructured(p: Policy, prefix: seq<Block>, b: Block, c: nat)
    requires 0 <= p.config.minDifficulty && |prefix| > 0 && LawfulHeader(p, prefix, b) && LawfulMoney(p, prefix, b.txs, c)
    ensures Structured(p, b, Some(b.txs[c].amount))
  {
    OnlyCollected(b.txs, c);
    ChainMintedIsPositive(prefix);
  }

  /** From a genesis that moves nothing a chain is valid exactly when genesis hashes right and every later block is lawful. */
  lemma {:induction false} ChainIsLawful(p: Policy, ch: seq<Block>)
    requires 0 <= p.config.minDifficulty && |ch| > 0 && ch[0].header.index == 0 && Still(ch[0])
    ensures ValidReference(p, ch) <==>
            && ch[0].hash == p.crypto.headerHash(ch[0].header)
            && ch[0].header.merkleRoot == Merkle.MerkleRoot(p.crypto, TxHashes(ch[0].txs))
            && forall i {:trigger ch[..i]} :: 0 < i < |ch| ==> LawfulNext(p, ch[..i], ch[i])
    decreases |ch|
  {
    if |ch| == 1 {
      GenesisLaw(p, ch);
    } else {
      var n := |ch| - 1;
      var prefix := ch[..n];
      ChainIsLawful(p, prefix);
      SplitLast(ch);
      ValidSnoc(p, prefix, ch[n]);
      forall i | 0 < i < n
        ensures LawfulNext(p, prefix[..i], prefix[i]) <==> LawfulNext(p, ch[..i], ch[i])
      {
        assert prefix[..i] == ch[..i];
      }
      if ValidReference(p, prefix) { NextIsLawful(p, prefix, ch[n]); }
    }
  }

  lemma GenesisLaw(p: Policy, ch: seq<Block>)
    requires 0 <= p.config.minDifficulty && |ch| == 1 && ch[0].header.index == 0
    ensures ValidReference(p, ch) <==>
            ch[0].hash == p.crypto.headerHash(ch[0].header) && ch[0].header.merkleRoot == Merkle.MerkleRoot(p.crypto, TxHashes(ch[0].txs))
  {
    assert ch[..0] == [] && StateFromChain(p, []).Some?;
  }

  /**
   * The difficulty of a next block under factor four: the configured one for fewer than two blocks, otherwise
   * the last block's, one higher or one lower by the time the last `interval` blocks took, every time anew.
   */
  lemma DifficultyLaw(p: Policy, prefix: seq<Block>)
    requires 0 <= p.config.minDifficulty && p.config.factor == 4 && p.config.target > 0
    requires |prefix| > 0 && p.config.minDifficulty <= prefix[|prefix| - 1].header.difficulty <= p.config.maxDifficulty
    ensures var w := if 0 < p.interval <= |prefix| then p.interval else |prefix|;
            var last, first := prefix[|prefix| - 1].header, prefix[|prefix| - w].header;
            DifficultyAfter(p, prefix) ==
            if w < 2 then p.configured
            else if 4 <= (w - 1) * p.config.target && 4 * (last.timestamp - first.timestamp) <= (w - 1) * p.config.target
                    && last.difficulty < p.config.maxDifficulty
            then last.difficulty + 1
            else if last.timestamp - first.timestamp >= 4 * ((w - 1) * p.config.target) && last.difficulty > p.config.minDifficulty
            then last.difficulty - 1
            else last.difficulty
  {
    var window := Window(p, prefix);
    if |window| >= 2 { RetargetLaw(window, p.config, p.configured); }
  }
}
