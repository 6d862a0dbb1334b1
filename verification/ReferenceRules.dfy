/**
 * The Python reference node's validation: monetary state recomputed from genesis, and the rules
 * for a next block and a whole chain. (blockchain/validators.py)
 */
module ReferenceRules {
  import opened Base
  import opened Protocol
  import opened Retarget
  import opened BalanceCache
  import Rules
  import Merkle

  // ---- recomputation from genesis (blockchain/validators.py) ----------------

  /** Hashes, `validate_transaction`, and the consensus and monetary settings. */
  datatype Policy = Policy(crypto: Crypto, valid: Tx -> bool, config: Config, configured: int, interval: nat, reward: int, maxSupply: int)

  datatype Monetary = Monetary(balances: map<Text, int>, supply: int)

  function CoinbasesOf(txs: seq<Tx>): seq<Tx>
    decreases |txs|
  {
    if txs == [] then []
    else CoinbasesOf(txs[..|txs| - 1]) + (if txs[|txs| - 1].sender == COINBASE_SENDER then [txs[|txs| - 1]] else [])
  }

  /** The transfers of a block, in order; the coinbase was credited before. */
  function Transfers(p: Policy, m: map<Text, int>, txs: seq<Tx>): Option<map<Text, int>>
    decreases |txs|
  {
    if txs == [] then Some(m)
    else
      var n :- Transfers(p, m, txs[..|txs| - 1]);
      var tx := txs[|txs| - 1];
      if tx.sender == COINBASE_SENDER then Some(n)
      else if !p.valid(tx) || tx.amount > Held(n, tx.sender) then None
      else Some(Adjusted(Adjusted(n, tx.sender, -1 * tx.amount), tx.receiver, tx.amount))
  }

  function BlockState(p: Policy, s: Monetary, txs: seq<Tx>): Option<Monetary> {
    var coins := CoinbasesOf(txs);
    var expected := Min(p.reward, p.maxSupply - s.supply);
    if |coins| != 1 || expected <= 0 || coins[0].amount != expected || s.supply + coins[0].amount > p.maxSupply then None
    else
      var m :- Transfers(p, Adjusted(s.balances, coins[0].receiver, coins[0].amount), txs);
      Some(Monetary(m, s.supply + coins[0].amount))
  }

  /** `_state_from_chain`. */
  function StateFromChain(p: Policy, ch: seq<Block>): Option<Monetary>
    decreases |ch|
  {
    if ch == [] then Some(Monetary(map[], 0))
    else
      var s :- StateFromChain(p, ch[..|ch| - 1]);
      if ch[|ch| - 1].header.index == 0 then Some(s) else BlockState(p, s, ch[|ch| - 1].txs)
  }

  function CoinDelta(txs: seq<Tx>, a: Text): int
    decreases |txs|
  {
    if txs == [] then 0 else CoinDelta(txs[..|txs| - 1], a) + (if txs[|txs| - 1].receiver == a then txs[|txs| - 1].amount else 0)
  }

  lemma CoinDeltaSnoc(init: seq<Tx>, txs: seq<Tx>, a: Text)
    requires txs != [] && init == txs[..|txs| - 1]
    ensures CoinDelta(CoinbasesOf(txs), a) == CoinDelta(CoinbasesOf(init), a) +
            (if txs[|txs| - 1].sender == COINBASE_SENDER && txs[|txs| - 1].receiver == a then txs[|txs| - 1].amount else 0)
  {
    var coins := CoinbasesOf(txs);
    if txs[|txs| - 1].sender == COINBASE_SENDER {
      assert coins[..|coins| - 1] == CoinbasesOf(init);
    } else {
      assert coins == CoinbasesOf(init);
    }
  }

  lemma TransferHolds(m: map<Text, int>, tx: Tx, a: Text)
    requires tx.sender != COINBASE_SENDER
    ensures Held(Adjusted(Adjusted(m, tx.sender, -1 * tx.amount), tx.receiver, tx.amount), a) == Held(m, a) + Delta(tx, a)
  {
  }

  lemma {:induction false} TransfersHold(p: Policy, m: map<Text, int>, txs: seq<Tx>, a: Text)
    requires Transfers(p, m, txs).Some?
    ensures Held(Transfers(p, m, txs).value, a) == Held(m, a) + TxsDelta(txs, a) - CoinDelta(CoinbasesOf(txs), a)
    decreases |txs|
  {
    if txs != [] {
      var init, tx := txs[..|txs| - 1], txs[|txs| - 1];
      TransfersHold(p, m, init, a);
      CoinDeltaSnoc(init, txs, a);
      if tx.sender != COINBASE_SENDER { TransferHolds(Transfers(p, m, init).value, tx, a); }
    }
  }

  lemma OneCoin(coins: seq<Tx>, a: Text)
    requires |coins| == 1
    ensures CoinDelta(coins, a) == if coins[0].receiver == a then coins[0].amount else 0
  {
    assert coins[..0] == [] && CoinDelta([], a) == 0;
  }

  /** A genesis block that moves nothing. */
  predicate Still(b: Block) {
    forall i :: 0 <= i < |b.txs| ==> b.txs[i].amount == 0
  }

  lemma {:induction false} StillDelta(txs: seq<Tx>, a: Text)
    requires forall i :: 0 <= i < |txs| ==> txs[i].amount == 0
    ensures TxsDelta(txs, a) == 0
    decreases |txs|
  {
    if txs != [] { StillDelta(txs[..|txs| - 1], a); }
  }

  /** The recomputed state of an accepted chain holds the net effect of its transactions. */
  lemma {:induction false} StateIsNetEffect(p: Policy, ch: seq<Block>, a: Text)
    requires StateFromChain(p, ch).Some? && Indexed(ch) && (|ch| > 0 ==> Still(ch[0]))
    ensures Held(StateFromChain(p, ch).value.balances, a) == ChainDelta(ch, a)
    decreases |ch|
  {
    if ch != [] {
      var init, txs := ch[..|ch| - 1], ch[|ch| - 1].txs;
      if |init| > 0 { assert init[0] == ch[0]; }
      StateIsNetEffect(p, init, a);
      if ch[|ch| - 1].header.index == 0 {
        StillDelta(txs, a);
      } else {
        BlockHolds(p, StateFromChain(p, init).value, txs, a);
      }
    }
  }

  lemma BlockHolds(p: Policy, s: Monetary, txs: seq<Tx>, a: Text)
    requires BlockState(p, s, txs).Some?
    ensures Held(BlockState(p, s, txs).value.balances, a) == Held(s.balances, a) + TxsDelta(txs, a)
  {
    var coins := CoinbasesOf(txs);
    OneCoin(coins, a);
    TransfersHold(p, Adjusted(s.balances, coins[0].receiver, coins[0].amount), txs, a);
  }

  /** The cache agrees with recomputation from genesis. */
  lemma CacheIsRecomputation(p: Policy, t: Tables, w: map<Text, int>, ch: seq<Block>, a: Text)
    requires Mirrors(t, w, ch) && StateFromChain(p, ch).Some? && (|ch| > 0 ==> Still(ch[0])) && a != COINBASE_SENDER
    ensures (if a in w then w[a] else History(t.rows, a)) == Held(StateFromChain(p, ch).value.balances, a)
  {
    ReadBalance(t, w, ch, a);
    StateIsNetEffect(p, ch, a);
  }

  // ---- the state as it is computed ------------------------------------------

  lemma {:induction false} TransfersFailEarly(p: Policy, m: map<Text, int>, txs: seq<Tx>, i: nat)
    requires i <= |txs| && Transfers(p, m, txs[..i]).None?
    ensures Transfers(p, m, txs).None?
    decreases |txs|
  {
    if i == |txs| {
      WholeSlice(txs);
    } else {
      SliceOfSlice(txs, i);
      TransfersFailEarly(p, m, txs[..|txs| - 1], i);
    }
  }

  lemma {:induction false} StateFailsEarly(p: Policy, ch: seq<Block>, i: nat)
    requires i <= |ch| && StateFromChain(p, ch[..i]).None?
    ensures StateFromChain(p, ch).None?
    decreases |ch|
  {
    if i == |ch| {
      WholeSlice(ch);
    } else {
      SliceOfSlice(ch, i);
      StateFailsEarly(p, ch[..|ch| - 1], i);
    }
  }

  method SelectCoinbases(txs: seq<Tx>) returns (coins: seq<Tx>)
    ensures coins == CoinbasesOf(txs)
  {
    coins := [];
    for i := 0 to |txs|
      invariant coins == CoinbasesOf(txs[..i])
    {
      Extend(txs, i);
      if txs[i].sender == COINBASE_SENDER { coins := coins + [txs[i]]; }
    }
    WholeSlice(txs);
  }

  method ApplyTransfers(p: Policy, m: map<Text, int>, txs: seq<Tx>) returns (balances: Option<map<Text, int>>)
    ensures balances == Transfers(p, m, txs)
  {
    var w := m;
    for i := 0 to |txs|
      invariant Transfers(p, m, txs[..i]) == Some(w)
    {
      Extend(txs, i);
      var tx := txs[i];
      if tx.sender != COINBASE_SENDER {
        if !p.valid(tx) || tx.amount > Held(w, tx.sender) {
          TransfersFailEarly(p, m, txs, i + 1);
          return None;
        }
        w := Adjusted(w, tx.sender, -1 * tx.amount);
        w := Adjusted(w, tx.receiver, tx.amount);
      }
    }
    WholeSlice(txs);
    balances := Some(w);
  }

  method ComputeBlockState(p: Policy, s: Monetary, txs: seq<Tx>) returns (next: Option<Monetary>)
    ensures next == BlockState(p, s, txs)
  {
    var coins := SelectCoinbases(txs);
    if |coins| != 1 { return None; }
    var expected := Min(p.reward, p.maxSupply - s.supply);
    if expected <= 0 || coins[0].amount != expected { return None; }
    if s.supply + coins[0].amount > p.maxSupply { return None; }
    var m := ApplyTransfers(p, Adjusted(s.balances, coins[0].receiver, coins[0].amount), txs);
    next := if m.None? then None else Some(Monetary(m.value, s.supply + coins[0].amount));
  }

  /** `_state_from_chain`. */
  method ComputeState(p: Policy, ch: seq<Block>) returns (state: Option<Monetary>)
    ensures state == StateFromChain(p, ch)
  {
    var s := Monetary(map[], 0);
    for i := 0 to |ch|
      invariant StateFromChain(p, ch[..i]) == Some(s)
    {
      Extend(ch, i);
      if ch[i].header.index != 0 {
        var next := ComputeBlockState(p, s, ch[i].txs);
        if next.None? {
          StateFailsEarly(p, ch, i + 1);
          return None;
        }
        s := next.value;
      }
    }
    WholeSlice(ch);
    state := Some(s);
  }

  // ---- validation -----------------------------------------------------------

  /** The window of `expected_difficulty`. */
  function Window(p: Policy, prefix: seq<Block>): seq<Block> {
    if 0 < p.interval <= |prefix| then prefix[|prefix| - p.interval..] else prefix
  }

  function DifficultyAfter(p: Policy, prefix: seq<Block>): int
    requires 0 <= p.config.minDifficulty
  {
    ReferenceDifficulty(Window(p, prefix), p.config, p.configured)
  }

  /** `validate_block_structure`; the reward is tested only for a next block. */
  predicate Structured(p: Policy, b: Block, reward: Option<int>) {
    var coins := CoinbasesOf(b.txs);
    && b.header.index >= 0
    && Merkle.MerkleRoot(p.crypto, TxHashes(b.txs)) == b.header.merkleRoot
    && p.crypto.headerHash(b.header) == b.hash
    && (b.header.index != 0 ==>
          && |coins| == 1
          && (reward.Some? ==> coins[0].amount == reward.value)
          && coins[0].amount <= p.maxSupply
          && AllAccepted(p, b.txs))
  }

  predicate AllAccepted(p: Policy, txs: seq<Tx>) {
    forall i :: 0 <= i < |txs| ==> p.valid(txs[i])
  }

  /** `ProofOfWorkConsensus.validate`; a negative difficulty asks for no zeros. */
  predicate Proven(p: Policy, b: Block, required: int) {
    && p.crypto.headerHash(b.header) == b.hash
    && b.header.difficulty >= required
    && Rules.MeetsDifficulty(b.hash, Max(b.header.difficulty, 0))
  }

  /** What the header of a next block has to satisfy. */
  predicate HeaderFollows(p: Policy, prefix: seq<Block>, b: Block)
    requires 0 <= p.config.minDifficulty && |prefix| > 0
  {
    var parent := prefix[|prefix| - 1];
    && b.header.index == parent.header.index + 1
    && b.header.previousHash == parent.hash
    && b.header.timestamp > parent.header.timestamp
    && b.header.difficulty == DifficultyAfter(p, prefix)
    && Proven(p, b, DifficultyAfter(p, prefix))
  }

  /** `validate_block_against_chain`. */
  predicate ValidNext(p: Policy, prefix: seq<Block>, b: Block)
    requires 0 <= p.config.minDifficulty
  {
    && |prefix| > 0
    && HeaderFollows(p, prefix, b)
    && StateFromChain(p, prefix).Some? && StateFromChain(p, prefix + [b]).Some?
    && var reward := Min(p.reward, p.maxSupply - StateFromChain(p, prefix).value.supply);
       reward > 0 && Structured(p, b, Some(reward))
  }

  /** The first `n` blocks follow one another. */
  predicate Linked(p: Policy, ch: seq<Block>, n: nat)
    requires 0 <= p.config.minDifficulty && n <= |ch|
    decreases n, 0
  {
    n <= 1 || LinkedBy(p, ch, n - 1)
  }

  predicate LinkedBy(p: Policy, ch: seq<Block>, i: nat)
    requires 0 <= p.config.minDifficulty && i < |ch|
    decreases i, 1
  {
    Linked(p, ch, i) && ValidNext(p, ch[..i], ch[i])
  }

  lemma {:induction false} LinkedStep(p: Policy, ch: seq<Block>, i: nat)
    requires 0 <= p.config.minDifficulty && 1 <= i < |ch|
    ensures Linked(p, ch, i + 1) <==> Linked(p, ch, i) && ValidNext(p, ch[..i], ch[i])
  {
    assert Linked(p, ch, i + 1) == LinkedBy(p, ch, i);
  }

  lemma {:induction false} LinkedDown(p: Policy, ch: seq<Block>, i: nat, n: nat)
    requires 0 <= p.config.minDifficulty && i <= n <= |ch| && Linked(p, ch, n)
    ensures Linked(p, ch, i)
    decreases n
  {
    if i < n && n > 1 {
      LinkedInit(p, ch, n);
      LinkedDown(p, ch, i, n - 1);
    }
  }

  lemma {:induction false} LinkedInit(p: Policy, ch: seq<Block>, n: nat)
    requires 0 <= p.config.minDifficulty && 1 < n <= |ch| && Linked(p, ch, n)
    ensures Linked(p, ch, n - 1)
  {
    LinkedStep(p, ch, n - 1);
  }

  lemma {:induction false} LinkedPrefix(p: Policy, ch: seq<Block>, more: seq<Block>, n: nat)
    requires 0 <= p.config.minDifficulty && n <= |ch| && ch <= more
    ensures Linked(p, ch, n) == Linked(p, more, n)
  {
    if n > 1 {
      LinkedPrefix(p, ch, more, n - 1);
      LinkedStep(p, ch, n - 1);
      LinkedStep(p, more, n - 1);
      assert ch[..n - 1] == more[..n - 1] && ch[n - 1] == more[n - 1];
    }
  }

  /** `validate_chain`. */
  predicate ValidReference(p: Policy, ch: seq<Block>)
    requires 0 <= p.config.minDifficulty
  {
    && |ch| > 0 && Structured(p, ch[0], None)
    && Linked(p, ch, |ch|)
    && StateFromChain(p, ch).Some?
  }

  lemma {:induction false} ValidSnoc(p: Policy, ch: seq<Block>, b: Block)
    requires 0 <= p.config.minDifficulty && |ch| > 0
    ensures ValidReference(p, ch + [b]) <==> ValidReference(p, ch) && ValidNext(p, ch, b)
  {
    var more := ch + [b];
    LinkedPrefix(p, ch, more, |ch|);
    LinkedStep(p, more, |ch|);
    assert more[..|ch|] == ch && more[|ch|] == b;
    if ValidNext(p, ch, b) { assert StateFromChain(p, more).Some?; }
    LastOf(ch, b);
  }

  /** Indices count up from the genesis block. */
  lemma {:induction false} ValidIndexed(p: Policy, ch: seq<Block>, i: nat)
    requires 0 <= p.config.minDifficulty && ValidReference(p, ch) && ch[0].header.index == 0 && i < |ch|
    ensures ch[i].header.index == i
  {
    if i > 0 {
      ValidIndexed(p, ch, i - 1);
      LinkedDown(p, ch, i + 1, |ch|);
      LinkedStep(p, ch, i);
    }
  }

  method CheckStructure(p: Policy, b: Block, reward: Option<int>) returns (ok: bool)
    ensures ok == Structured(p, b, reward)
  {
    if b.header.index < 0 { return false; }
    var root := Merkle.ComputeMerkleRoot(p.crypto, TxHashes(b.txs));
    if root != b.header.merkleRoot || p.crypto.headerHash(b.header) != b.hash { return false; }
    if b.header.index == 0 { return true; }
    var coins := SelectCoinbases(b.txs);
    if |coins| != 1 { return false; }
    if reward.Some? && coins[0].amount != reward.value { return false; }
    if coins[0].amount > p.maxSupply { return false; }
    ok := CheckTransactions(p, b.txs);
  }

  method CheckTransactions(p: Policy, txs: seq<Tx>) returns (ok: bool)
    ensures ok == AllAccepted(p, txs)
  {
    for i := 0 to |txs|
      invariant forall j :: 0 <= j < i ==> p.valid(txs[j])
    {
      if !p.valid(txs[i]) { return false; }
    }
    ok := true;
  }

  method CheckHeader(p: Policy, prefix: seq<Block>, b: Block) returns (ok: bool)
    requires 0 <= p.config.minDifficulty && |prefix| > 0
    ensures ok == HeaderFollows(p, prefix, b)
  {
    var parent := prefix[|prefix| - 1];
    if b.header.index != parent.header.index + 1 || b.header.previousHash != parent.hash { return false; }
    if b.header.timestamp <= parent.header.timestamp { return false; }
    var required := ComputeReferenceDifficulty(Window(p, prefix), p.config, p.configured);
    ok := b.header.difficulty == required && Proven(p, b, required);
  }

  method ValidateNext(p: Policy, prefix: seq<Block>, b: Block) returns (ok: bool)
    requires 0 <= p.config.minDifficulty
    ensures ok == ValidNext(p, prefix, b)
  {
    if |prefix| == 0 { return false; }
    var before := ComputeState(p, prefix);
    var after := ComputeState(p, prefix + [b]);
    if before.None? || after.None? { return false; }
    ok := CheckHeader(p, prefix, b);
    var reward := Min(p.reward, p.maxSupply - before.value.supply);
    if !ok || reward <= 0 { return false; }
    ok := CheckStructure(p, b, Some(reward));
  }

  method ValidateAt(p: Policy, ch: seq<Block>, i: nat) returns (ok: bool)
    requires 0 <= p.config.minDifficulty && 1 <= i < |ch| && Linked(p, ch, i)
    ensures ok == Linked(p, ch, i + 1)
  {
    LinkedStep(p, ch, i);
    ok := ValidateNext(p, ch[..i], ch[i]);
  }

  method ValidateLinks(p: Policy, ch: seq<Block>) returns (ok: bool)
    requires 0 <= p.config.minDifficulty && |ch| > 0
    ensures ok == Linked(p, ch, |ch|)
  {
    for i := 1 to |ch|
      invariant Linked(p, ch, i)
    {
      ok := ValidateAt(p, ch, i);
      if !ok {
        if Linked(p, ch, |ch|) { LinkedDown(p, ch, i + 1, |ch|); }
        return;
      }
    }
    ok := true;
  }

  /** `validate_chain`. */
  method ValidateChain(p: Policy, ch: seq<Block>) returns (ok: bool)
    requires 0 <= p.config.minDifficulty
    ensures ok == ValidReference(p, ch)
  {
    if |ch| == 0 { return false; }
    ok := CheckStructure(p, ch[0], None);
    if !ok { return; }
    ok := ValidateLinks(p, ch);
    if !ok { return; }
    var s := ComputeState(p, ch);
    ok := s.Some?;
  }

  // ---- the supply -----------------------------------------------------------

  /** The coinbase amounts of a block. */
  function Minted(txs: seq<Tx>): int
    decreases |txs|
  {
    if txs == [] then 0 else Minted(txs[..|txs| - 1]) + (if txs[|txs| - 1].sender == COINBASE_SENDER then txs[|txs| - 1].amount else 0)
  }

  function ChainMinted(ch: seq<Block>): int
    decreases |ch|
  {
    if ch == [] then 0 else ChainMinted(ch[..|ch| - 1]) + Minted(ch[|ch| - 1].txs)
  }

  lemma {:induction false} MintedByCoinbases(txs: seq<Tx>)
    ensures Minted(txs) == Minted(CoinbasesOf(txs))
    decreases |txs|
  {
    if txs != [] {
      var init, tx := txs[..|txs| - 1], txs[|txs| - 1];
      MintedByCoinbases(init);
      LastOf(CoinbasesOf(init), tx);
      assert CoinbasesOf(init) + [] == CoinbasesOf(init);
    }
  }

  lemma {:induction false} CoinbasesAre(txs: seq<Tx>)
    ensures forall c :: c in CoinbasesOf(txs) ==> c.sender == COINBASE_SENDER
    decreases |txs|
  {
    if txs != [] { CoinbasesAre(txs[..|txs| - 1]); }
  }

  lemma {:induction false} OneMinted(txs: seq<Tx>)
    requires |CoinbasesOf(txs)| == 1
    ensures Minted(txs) == CoinbasesOf(txs)[0].amount
  {
    MintedByCoinbases(txs);
    CoinbasesAre(txs);
    var coins := CoinbasesOf(txs);
    assert coins[0] in coins && coins[..0] == [];
  }

  /** The recomputed supply is what the coinbases of the chain minted. */
  lemma {:induction false} SupplyIsMinted(p: Policy, ch: seq<Block>)
    requires StateFromChain(p, ch).Some? && Indexed(ch) && (|ch| > 0 ==> Still(ch[0]))
    ensures StateFromChain(p, ch).value.supply == ChainMinted(ch) <= Max(0, p.maxSupply)
    decreases |ch|
  {
    if ch != [] {
      var init, b := ch[..|ch| - 1], ch[|ch| - 1];
      if |init| > 0 { assert init[0] == ch[0]; }
      SupplyIsMinted(p, init);
      if b.header.index == 0 { StillMints(b.txs); } else { OneMinted(b.txs); }
    }
  }

  lemma {:induction false} StillMints(txs: seq<Tx>)
    requires forall i :: 0 <= i < |txs| ==> txs[i].amount == 0
    ensures Minted(txs) == 0
    decreases |txs|
  {
    if txs != [] { StillMints(txs[..|txs| - 1]); }
  }

  // ---- what validation does not look at -------------------------------------

  /**
   * A block that consists of a full coinbase can be followed by one with the very same transaction:
   * validation accepts every such block with a fitting header, although its hash is already recorded.
   */
  lemma {:induction false} RepeatedCoinbaseIsValid(p: Policy, ch: seq<Block>, b: Block, c: Block)
    requires 0 <= p.config.minDifficulty && |ch| > 0 && ch[0].header.index == 0 && ValidReference(p, ch + [b])
    requires |b.txs| == 1 && b.txs[0].amount == p.reward > 0
    requires StateFromChain(p, ch + [b]).value.supply + p.reward <= p.maxSupply
    requires HeaderFollows(p, ch + [b], c) && c.txs == b.txs && c.header.merkleRoot == b.header.merkleRoot
    ensures ValidNext(p, ch + [b], c) && !Unused(ch + [b], c)
  {
    ValidSnoc(p, ch, b);
    assert (ch + [b])[0] == ch[0];
    ValidIndexed(p, ch + [b], |ch|);
    CoinbaseFollows(p, ch + [b], c);
    SameStructure(p, b, c);
    RepeatsHash(ch, b, c);
  }

  lemma {:induction false} CoinbaseFollows(p: Policy, ch: seq<Block>, c: Block)
    requires StateFromChain(p, ch).Some? && StateFromChain(p, ch).value.supply + p.reward <= p.maxSupply
    requires c.header.index > 0 && |CoinbasesOf(c.txs)| == |c.txs| == 1 && c.txs[0].amount == p.reward > 0
    ensures StateFromChain(p, ch + [c]).Some? && CoinbasesOf(c.txs) == c.txs
  {
    StateSnoc(p, ch, c);
    CoinbaseBlock(p, StateFromChain(p, ch).value, c.txs);
  }

  lemma {:induction false} SameStructure(p: Policy, b: Block, c: Block)
    requires b.header.index > 0 && c.header.index > 0 && Structured(p, b, None) && CoinbasesOf(b.txs) == b.txs
    requires |b.txs| == 1 && b.txs[0].amount == p.reward
    requires c.txs == b.txs && c.header.merkleRoot == b.header.merkleRoot && p.crypto.headerHash(c.header) == c.hash
    ensures Structured(p, c, Some(p.reward))
  {
  }

  lemma {:induction false} RepeatsHash(ch: seq<Block>, b: Block, c: Block)
    requires b.txs != [] && c.txs == b.txs
    ensures !Unused(ch + [b], c)
  {
    LastOf(ch, b);
    assert TxHashes(c.txs)[0] in TxHashes(b.txs);
  }

  lemma {:induction false} StateSnoc(p: Policy, ch: seq<Block>, b: Block)
    requires StateFromChain(p, ch).Some? && b.header.index != 0
    ensures StateFromChain(p, ch + [b]) == BlockState(p, StateFromChain(p, ch).value, b.txs)
  {
    LastOf(ch, b);
  }

  lemma {:induction false} CoinbaseBlock(p: Policy, s: Monetary, txs: seq<Tx>)
    requires |txs| == 1 && |CoinbasesOf(txs)| == 1 && txs[0].amount == p.reward > 0 && s.supply + p.reward <= p.maxSupply
    ensures BlockState(p, s, txs).Some? && CoinbasesOf(txs) == txs
  {
    var init := txs[..|txs| - 1];
    assert init == [];
    var m := Adjusted(s.balances, txs[0].receiver, txs[0].amount);
    assert CoinbasesOf(txs) == txs && Transfers(p, m, init) == Some(m);
  }

  // ---- a transfer confirmed twice -------------------------------------------

  /** A block with a coinbase and one transfer that the balance after the coinbase covers. */
  lemma {:induction false} TransferState(p: Policy, s: Monetary, coin: Tx, tx: Tx)
    requires coin.sender == COINBASE_SENDER && coin.amount == Min(p.reward, p.maxSupply - s.supply) > 0
    requires tx.sender != COINBASE_SENDER && p.valid(tx)
    requires tx.amount <= Held(Adjusted(s.balances, coin.receiver, coin.amount), tx.sender)
    ensures CoinbasesOf([coin, tx]) == [coin] && BlockState(p, s, [coin, tx]).Some?
    ensures BlockState(p, s, [coin, tx]).value.supply == s.supply + coin.amount
  {
    TwoCoinbases(coin, tx);
    TwoTransfers(p, Adjusted(s.balances, coin.receiver, coin.amount), coin, tx);
  }

  lemma {:induction false} TwoCoinbases(coin: Tx, tx: Tx)
    requires coin.sender == COINBASE_SENDER && tx.sender != COINBASE_SENDER
    ensures CoinbasesOf([coin, tx]) == [coin]
  {
    var one, two := [coin], [coin, tx];
    assert one[..|one| - 1] == [] && two[..|two| - 1] == one;
    assert CoinbasesOf([]) == [];
    assert CoinbasesOf(one) == [coin];
  }

  lemma {:induction false} TwoTransfers(p: Policy, m: map<Text, int>, coin: Tx, tx: Tx)
    requires coin.sender == COINBASE_SENDER && tx.sender != COINBASE_SENDER && p.valid(tx) && tx.amount <= Held(m, tx.sender)
    ensures Transfers(p, m, [coin, tx]).Some?
  {
    var one, two := [coin], [coin, tx];
    assert one[..|one| - 1] == [] && two[..|two| - 1] == one;
    assert Transfers(p, m, []) == Some(m);
    assert Transfers(p, m, one) == Some(m);
  }

  lemma {:induction false} TransferStructure(p: Policy, coin: Tx, tx: Tx, c: Block, prefix: seq<Block>)
    requires 0 <= p.config.minDifficulty && prefix != [] && HeaderFollows(p, prefix, c) && c.header.index >= 0
    requires c.txs == [coin, tx] && c.header.merkleRoot == Merkle.MerkleRoot(p.crypto, TxHashes(c.txs))
    requires CoinbasesOf([coin, tx]) == [coin] && coin.amount <= p.maxSupply && p.valid(coin) && p.valid(tx)
    ensures Structured(p, c, Some(coin.amount))
  {
  }

  lemma {:induction false} TransferBlockIsValid(p: Policy, ch: seq<Block>, coin: Tx, tx: Tx, c: Block)
    requires 0 <= p.config.minDifficulty && ch != [] && StateFromChain(p, ch).Some? && HeaderFollows(p, ch, c) && c.header.index > 0
    requires c.txs == [coin, tx] && c.header.merkleRoot == Merkle.MerkleRoot(p.crypto, TxHashes(c.txs))
    requires coin.sender == COINBASE_SENDER && p.valid(coin) && tx.sender != COINBASE_SENDER && p.valid(tx)
    requires coin.amount == Min(p.reward, p.maxSupply - StateFromChain(p, ch).value.supply) > 0
    requires tx.amount <= Held(Adjusted(StateFromChain(p, ch).value.balances, coin.receiver, coin.amount), tx.sender)
    requires StateFromChain(p, ch).value.supply >= 0
    ensures ValidNext(p, ch, c)
  {
    TransferState(p, StateFromChain(p, ch).value, coin, tx);
    StateSnoc(p, ch, c);
    TransferStructure(p, coin, tx, c, ch);
  }

  /** Transactions of a valid chain passed `validate_transaction`. */
  lemma {:induction false} ConfirmedIsAccepted(p: Policy, ch: seq<Block>, i: nat, tx: Tx)
    requires 0 <= p.config.minDifficulty && ValidReference(p, ch) && ch[0].header.index == 0
    requires 0 < i < |ch| && tx in ch[i].txs
    ensures p.valid(tx)
  {
    LinkedDown(p, ch, i + 1, |ch|);
    LinkedStep(p, ch, i);
    ValidIndexed(p, ch, i);
    var k :| 0 <= k < |ch[i].txs| && ch[i].txs[k] == tx;
    assert AllAccepted(p, ch[i].txs);
  }

  lemma {:induction false} ConfirmedHash(ch: seq<Block>, i: nat, tx: Tx)
    requires i < |ch| && tx in ch[i].txs
    ensures tx.txHash in ChainTxHashes(ch)
    decreases |ch|
  {
    if i < |ch| - 1 {
      ConfirmedHash(ch[..|ch| - 1], i, tx);
    } else {
      var k :| 0 <= k < |ch[i].txs| && ch[i].txs[k] == tx;
      assert TxHashes(ch[i].txs)[k] == tx.txHash;
    }
  }

  /**
   * A confirmed transfer can be confirmed again: as long as its sender holds the amount, validation
   * accepts every next block with a fitting header that repeats it, and the store refuses that block.
   */
  lemma {:induction false} RepeatedTransferIsValid(p: Policy, ch: seq<Block>, i: nat, coin: Tx, tx: Tx, c: Block)
    requires 0 <= p.config.minDifficulty && ValidReference(p, ch) && ch[0].header.index == 0 && StateFromChain(p, ch).value.supply >= 0
    requires 0 < i < |ch| && tx in ch[i].txs && tx.sender != COINBASE_SENDER
    requires HeaderFollows(p, ch, c) && c.txs == [coin, tx] && c.header.merkleRoot == Merkle.MerkleRoot(p.crypto, TxHashes(c.txs))
    requires coin.sender == COINBASE_SENDER && p.valid(coin)
    requires coin.amount == Min(p.reward, p.maxSupply - StateFromChain(p, ch).value.supply) > 0
    requires tx.amount <= Held(Adjusted(StateFromChain(p, ch).value.balances, coin.receiver, coin.amount), tx.sender)
    ensures ValidNext(p, ch, c) && !Unused(ch, c)
  {
    ValidIndexed(p, ch, |ch| - 1);
    ConfirmedIsAccepted(p, ch, i, tx);
    TransferBlockIsValid(p, ch, coin, tx, c);
    ConfirmedHash(ch, i, tx);
    assert TxHashes(c.txs)[1] == tx.txHash;
  }

  // ---- the smallest such chain ----------------------------------------------

  /** A header hash that is the block's index after 63 zeros. */
  function Numbered(i: int): Hex64 { seq(64, k requires 0 <= k < 64 => if k == 63 then 48 + i % 10 else 48) }

  function ToyCrypto(): Crypto {
    Crypto(d => seq(32, i => 0), (h: Header) => Numbered(h.index), x => Numbered(7), x => Numbered(8), t => [], tx => true)
  }

  function ToyPolicy(): Policy { Policy(ToyCrypto(), tx => true, Config(30, 0, 32, 4), 0, 1, 2, 10) }

  const ALICE: Text := [65]

  function ToyCoinbase(i: nat): Tx { Tx(0, [], 0, COINBASE_SENDER, ALICE, 2, i, [], [], Numbered(i), []) }
  function ToyTransfer(): Tx { Tx(0, [], 0, ALICE, [66], 1, 0, [], [], Numbered(7), []) }

  function ToyBlock(i: nat, previous: Text): Block {
    var txs := if i == 0 then [] else [ToyCoinbase(i), ToyTransfer()];
    Block(Header(i, previous, i, 0, 0, Merkle.MerkleRoot(ToyCrypto(), TxHashes(txs))), txs, Numbered(i))
  }

  lemma {:induction false} ToyFollows(prefix: seq<Block>, i: nat, previous: Text)
    requires |prefix| > 0 && prefix[|prefix| - 1].header.index == i && prefix[|prefix| - 1].header.timestamp == i
    requires prefix[|prefix| - 1].hash == previous
    ensures HeaderFollows(ToyPolicy(), prefix, ToyBlock(i + 1, previous))
  {
    assert |Window(ToyPolicy(), prefix)| == 1;
  }

  /** Alice is not the coinbase sender. */
  lemma AliceIsNoCoinbase()
    ensures ALICE != COINBASE_SENDER
  {
  }

  /**
   * A chain that is valid and stored, and a valid next block that the store refuses, because it carries
   * a transfer of the chain once more.
   */
  lemma {:induction false} SplitIsReachable() returns (p: Policy, ch: seq<Block>, c: Block)
    ensures 0 <= p.config.minDifficulty && ValidReference(p, ch) && Indexed(ch) && Recordable(ch)
    ensures ValidNext(p, ch, c) && !Unused(ch, c)
  {
    p := ToyPolicy();
    var g := ToyBlock(0, []);
    var b := ToyBlock(1, g.hash);
    c := ToyBlock(2, b.hash);
    ch := [g] + [b];
    AliceIsNoCoinbase();
    ToyFollows([g], 0, g.hash);
    ToyFollows(ch, 1, b.hash);
    ToyStart(p, g, b);
    assert ch[1] == b && b.txs[1] == ToyTransfer();
    RepeatedTransferIsValid(p, ch, 1, ToyCoinbase(2), ToyTransfer(), c);
    ToyStored(g, b);
  }

  lemma {:induction false} ToyStart(p: Policy, g: Block, b: Block)
    requires p == ToyPolicy() && g == ToyBlock(0, []) && b == ToyBlock(1, g.hash) && HeaderFollows(p, [g], b)
    ensures ValidReference(p, [g] + [b])
    ensures var s := StateFromChain(p, [g] + [b]).value; s.supply == 2 && Held(s.balances, ALICE) == 1
  {
    AliceIsNoCoinbase();
    assert [g][..0] == [] && StateFromChain(p, [g]) == Some(Monetary(map[], 0));
    TransferBlockIsValid(p, [g], ToyCoinbase(1), ToyTransfer(), b);
    assert CoinbasesOf(g.txs) == [];
    ValidSnoc(p, [g], b);
    StateSnoc(p, [g], b);
    TransferState(p, Monetary(map[], 0), ToyCoinbase(1), ToyTransfer());
    ToyBalance(p);
  }

  lemma {:induction false} ToyBalance(p: Policy)
    requires p == ToyPolicy() && BlockState(p, Monetary(map[], 0), [ToyCoinbase(1), ToyTransfer()]).Some?
    ensures Held(BlockState(p, Monetary(map[], 0), [ToyCoinbase(1), ToyTransfer()]).value.balances, ALICE) == 1
  {
    AliceIsNoCoinbase();
    var txs := [ToyCoinbase(1), ToyTransfer()];
    BlockHolds(p, Monetary(map[], 0), txs, ALICE);
    assert txs[..1] == [ToyCoinbase(1)] && [ToyCoinbase(1)][..0] == [];
    assert TxsDelta([], ALICE) == 0 && TxsDelta([ToyCoinbase(1)], ALICE) == 2;
  }

  lemma {:induction false} ToyStored(g: Block, b: Block)
    requires g == ToyBlock(0, []) && b == ToyBlock(1, g.hash)
    ensures Indexed([g] + [b]) && Recordable([g] + [b])
  {
    assert g.hash[63] != b.hash[63] && Numbered(1)[63] != Numbered(7)[63];
    LastOf([], g);
    assert [] + [g] == [g];
    RecordableStep([], g);
    RecordableStep([g], b);
    assert ChainTxHashes([g]) == [] && TxHashes(b.txs) == [Numbered(1), Numbered(7)];
  }
}
