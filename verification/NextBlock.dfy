/**
 * The rules for a next block in one place, without snapshots, replay or validators: what a block must
 * say of itself, who may spend what, and in which order. Validation accepts exactly these blocks.
 * (internal/chain/chain.go, internal/chain/v2.go, internal/transaction/transaction.go, internal/transaction/v2.go)
 */
module NextBlock {
  import opened Base
  import opened Protocol
  import opened Rules
  import opened Merkle
  import opened Ledger
  import opened Conservation
  import opened Equivalence
  import opened Nonces
  import opened ChainHeaders
  import opened NetEffect

  // ---- one transaction -----------------------------------------------------

  predicate HexDigitAt(t: Text, i: nat)
    requires i < |t|
  {
    48 <= t[i] <= 57 || 65 <= t[i] <= 70 || 97 <= t[i] <= 102
  }

  /** "SYJ" and forty hexadecimal digits. */
  predicate IsWallet(a: Text) {
    |a| == 43 && a[..3] == [83, 89, 74] && forall i :: 3 <= i < 43 ==> HexDigitAt(a, i)
  }

  /** A key the sender's address was made from, and a signature that verifies under it. */
  predicate Authorised(c: Crypto, tx: Tx) {
    && c.addressOf(tx.publicKey) == tx.sender && c.signed(tx)
    && |tx.publicKey| == 128 && (forall i :: 0 <= i < 128 ==> HexDigitAt(tx.publicKey, i))
    && |tx.signature| == 128 && (forall i :: 0 <= i < 128 ==> HexDigitAt(tx.signature, i))
  }

  function Name(env: Env, tx: Tx): Text { if env.version >= 2 then tx.txId else tx.txHash }

  /** The version, the network and an identity taken of everything but the signature, or of everything. */
  predicate Labelled(env: Env, tx: Tx) {
    if env.version >= 2 then
      && tx.version == 2 && tx.networkId == env.networkId
      && tx.txId == env.crypto.txId(V2Payload(tx.amount, tx.networkId, tx.nonce, tx.receiver, tx.sender, tx.publicKey, tx.timestamp))
    else
      && tx.version == 0
      && tx.txHash == env.crypto.txHash(V1Payload(tx.sender, tx.receiver, tx.amount, tx.timestamp, tx.publicKey, tx.signature))
  }

  predicate LawfulTransfer(env: Env, tx: Tx) {
    && IsWallet(tx.sender) && IsWallet(tx.receiver) && tx.sender != tx.receiver
    && 0 < tx.amount <= 72_000_000_000_000_000
    && 0 <= tx.timestamp && (if env.version >= 2 then tx.timestamp <= TWO64 else tx.timestamp < TIME_LIMIT)
    && Authorised(env.crypto, tx)
  }

  predicate LawfulCoinbase(env: Env, tx: Tx) {
    && IsWallet(tx.receiver) && tx.amount == 5_000_000_000
    && tx.publicKey == [] && tx.signature == []
    && 0 <= tx.timestamp && (if env.version >= 2 then tx.nonce == 0 else tx.timestamp < TIME_LIMIT)
  }

  predicate LawfulTx(env: Env, tx: Tx) {
    Labelled(env, tx) && if tx.sender == COINBASE_SENDER then LawfulCoinbase(env, tx) else LawfulTransfer(env, tx)
  }

  predicate AllLawful(env: Env, txs: seq<Tx>) { forall i :: 0 <= i < |txs| ==> LawfulTx(env, txs[i]) }

  // ---- a block's transactions ----------------------------------------------

  /** Each identity is new: not on the chain and not before it in the block. */
  ghost predicate NewNames(env: Env, prefix: seq<Block>, txs: seq<Tx>) {
    && (forall i :: 0 <= i < |txs| ==> Name(env, txs[i]) != [] && Name(env, txs[i]) !in AllIds(prefix))
    && (forall i, j :: 0 <= i < j < |txs| ==> Name(env, txs[i]) != Name(env, txs[j]))
    && (env.version >= 2 ==> [] !in AllIds(prefix))
  }

  predicate OnlyCoinbase(txs: seq<Tx>, i: nat) {
    i < |txs| && forall j :: 0 <= j < |txs| ==> (txs[j].sender == COINBASE_SENDER <==> j == i)
  }

  ghost predicate OneCoinbase(txs: seq<Tx>) { exists i :: OnlyCoinbase(txs, i) }

  /** What an address holds when it is the turn of transaction `i`. */
  function Holding(env: Env, prefix: seq<Block>, txs: seq<Tx>, i: nat, a: Text): int
    requires i <= |txs|
  {
    Allocated(env, a) + ReceivedOn(prefix, a) + Received(txs[..i], a) - SpentOn(prefix, a) - Spent(txs[..i], a)
  }

  /** How many transfers an address has made by then. */
  function Made(prefix: seq<Block>, txs: seq<Tx>, i: nat, a: Text): nat
    requires i <= |txs|
  {
    |NoncesOn(prefix, a)| + |NoncesIn(txs[..i], a)|
  }

  /** The sender can pay, and under version 2 and 3 counts its transfers. */
  predicate InTurn(env: Env, prefix: seq<Block>, txs: seq<Tx>, i: nat)
    requires i < |txs|
  {
    var tx := txs[i];
    tx.sender == COINBASE_SENDER ||
    (tx.amount <= Holding(env, prefix, txs, i, tx.sender)
     && (env.version >= 2 ==> tx.nonce == Made(prefix, txs, i, tx.sender) < MAX64))
  }

  // ---- the block -----------------------------------------------------------

  /** Four after genesis; at every tenth height one up after a fast epoch of ten, one down after a slow one. */
  function Level(prefix: seq<Block>): int
    requires |prefix| > 0
  {
    var d := prefix[|prefix| - 1].header.difficulty;
    if |prefix| == 1 then 4
    else if |prefix| % 10 != 0 then d
    else
      var span := prefix[|prefix| - 1].header.timestamp - prefix[|prefix| - 10].header.timestamp;
      if span <= 67 && d < 32 then d + 1 else if span >= 1080 && d > 1 then d - 1 else d
  }

  predicate LawfulHeader(env: Env, prefix: seq<Block>, b: Block)
    requires |prefix| > 0
  {
    var parent := prefix[|prefix| - 1];
    && b.header.index == |prefix| && b.header.previousHash == parent.hash
    && parent.header.timestamp < b.header.timestamp && 0 <= b.header.timestamp < TIME_LIMIT
    && (env.version < 3 ==> b.header.timestamp <= parent.header.timestamp + 120)
    && b.header.difficulty == Level(prefix)
    && Worked(env, b)
  }

  /** The identities in order, which the Merkle root is taken of. */
  function Names(env: Env, txs: seq<Tx>): seq<Text> { seq(|txs|, i requires 0 <= i < |txs| => Name(env, txs[i])) }

  /** The block hash is the header's and starts with as many zeros as the difficulty says. */
  predicate Worked(env: Env, b: Block) {
    && b.hash == env.crypto.headerHash(b.header)
    && 0 <= b.header.difficulty <= 64
    && forall i :: 0 <= i < b.header.difficulty && i < |b.hash| ==> b.hash[i] == 48
  }

  ghost predicate LawfulBlock(env: Env, prefix: seq<Block>, b: Block)
    requires |prefix| > 0
  {
    && LawfulHeader(env, prefix, b)
    && b.header.merkleRoot == MerkleRoot(env.crypto, Names(env, b.txs))
    && |prefix| <= (if env.genesis.Some? then 8_640_000 else 14_400_000)
    && AllLawful(env, b.txs)
    && OneCoinbase(b.txs) && NewNames(env, prefix, b.txs)
    && forall i :: 0 <= i < |b.txs| ==> InTurn(env, prefix, b.txs, i)
  }

  // ---- the validators agree: transactions -----------------------------------

  lemma WalletIsAddress(a: Text)
    ensures IsWallet(a) <==> ValidAddress(a)
  {
    if |a| == 43 {
      assert a[..3][0] == a[0] && a[..3][1] == a[1] && a[..3][2] == a[2];
      assert forall i :: 3 <= i < 43 ==> (HexDigitAt(a, i) <==> IsHexDigit(a[i]));
      if ValidAddress(a) { assert a[..3] == [83, 89, 74]; }
    }
  }

  lemma HexDigits(t: Text)
    requires |t| == 128
    ensures (forall i :: 0 <= i < 128 ==> HexDigitAt(t, i)) <==> AllHex(t)
  {
    assert forall i :: 0 <= i < 128 ==> (HexDigitAt(t, i) <==> IsHexDigit(t[i]));
  }

  lemma AuthorisedIsSigned(c: Crypto, tx: Tx)
    ensures IsWallet(tx.sender) && Authorised(c, tx) <==> SignedByWallet(c, tx)
  {
    WalletIsAddress(tx.sender);
    if |tx.publicKey| == 128 { HexDigits(tx.publicKey); }
    if |tx.signature| == 128 { HexDigits(tx.signature); }
  }

  /** A transaction passes validation exactly when it is lawful. */
  lemma TxLaw(env: Env, tx: Tx)
    requires ValidEnv(env)
    ensures TxValid(env, 5_000_000_000, tx) <==> LawfulTx(env, tx)
  {
    AuthorisedIsSigned(env.crypto, tx);
    WalletIsAddress(tx.sender);
    WalletIsAddress(tx.receiver);
    ReservedSendersAreNoAddresses();
  }

  // ---- the validators agree: identities --------------------------------------

  lemma NamesAreIds(env: Env, txs: seq<Tx>)
    requires ValidEnv(env) && AllLawful(env, txs)
    ensures forall i :: 0 <= i < |txs| ==> Name(env, txs[i]) == IdentityHash(txs[i])
    ensures Names(env, txs) == (if env.version >= 2 then Ids(txs) else TxHashes(txs))
  {
    forall i | 0 <= i < |txs|
      ensures Name(env, txs[i]) == IdentityHash(txs[i])
    {
      assert LawfulTx(env, txs[i]);
    }
  }

  lemma IdsBefore(txs: seq<Tx>, i: nat, x: Text)
    requires i <= |txs|
    ensures x in IdSet(txs[..i]) <==> exists j :: 0 <= j < i && IdentityHash(txs[j]) == x
  {
    if x in IdSet(txs[..i]) {
      var j :| 0 <= j < i && IdentityHash(txs[..i][j]) == x;
      assert txs[j] == txs[..i][j];
    }
    if j :| 0 <= j < i && IdentityHash(txs[j]) == x { assert txs[..i][j] == txs[j]; }
  }

  lemma NamesAreFresh(env: Env, prefix: seq<Block>, txs: seq<Tx>)
    requires ValidEnv(env) && AllLawful(env, txs)
    ensures NewNames(env, prefix, txs) <==> Fresh(ChainIds(prefix), txs) && (env.version >= 2 ==> [] !in ChainIds(prefix))
  {
    NamesAreIds(env, txs);
    AllIdsSet(prefix, []);
    forall i | 0 <= i < |txs|
      ensures Name(env, txs[i]) in AllIds(prefix) <==> IdentityHash(txs[i]) in ChainIds(prefix)
      ensures IdentityHash(txs[i]) in IdSet(txs[..i]) <==> exists j :: 0 <= j < i && IdentityHash(txs[j]) == IdentityHash(txs[i])
    {
      AllIdsSet(prefix, IdentityHash(txs[i]));
      IdsBefore(txs, i, IdentityHash(txs[i]));
    }
    if NewNames(env, prefix, txs) {
      FreshFromNew(env, prefix, txs);
    }
    if Fresh(ChainIds(prefix), txs) && (env.version >= 2 ==> [] !in ChainIds(prefix)) {
      FreshDistinct(ChainIds(prefix), txs);
      NewFromFresh(env, prefix, txs);
    }
  }

  lemma FreshFromNew(env: Env, prefix: seq<Block>, txs: seq<Tx>)
    requires NewNames(env, prefix, txs) && forall i :: 0 <= i < |txs| ==> Name(env, txs[i]) == IdentityHash(txs[i])
    requires forall i :: 0 <= i < |txs| ==> (Name(env, txs[i]) in AllIds(prefix) <==> IdentityHash(txs[i]) in ChainIds(prefix))
    ensures Fresh(ChainIds(prefix), txs)
  {
    forall i | 0 <= i < |txs|
      ensures IdentityHash(txs[i]) != [] && FreshAt(ChainIds(prefix), txs, i)
    {
      IdsBefore(txs, i, IdentityHash(txs[i]));
      assert Name(env, txs[i]) == IdentityHash(txs[i]);
    }
  }

  lemma NewFromFresh(env: Env, prefix: seq<Block>, txs: seq<Tx>)
    requires Fresh(ChainIds(prefix), txs) && Distinct(Ids(txs)) && (env.version >= 2 ==> [] !in AllIds(prefix))
    requires forall i :: 0 <= i < |txs| ==> Name(env, txs[i]) == IdentityHash(txs[i])
    requires forall i :: 0 <= i < |txs| ==> (Name(env, txs[i]) in AllIds(prefix) <==> IdentityHash(txs[i]) in ChainIds(prefix))
    ensures NewNames(env, prefix, txs)
  {
    forall i | 0 <= i < |txs|
      ensures Name(env, txs[i]) != [] && Name(env, txs[i]) !in AllIds(prefix)
    {
      assert FreshAt(ChainIds(prefix), txs, i);
    }
    forall i, j | 0 <= i < j < |txs|
      ensures Name(env, txs[i]) != Name(env, txs[j])
    {
      assert Ids(txs)[i] != Ids(txs)[j];
    }
  }

  // ---- the validators agree: one coinbase -------------------------------------

  lemma {:induction false} NoCoinbase(txs: seq<Tx>)
    ensures Coinbases(txs) == 0 <==> forall i :: 0 <= i < |txs| ==> txs[i].sender != COINBASE_SENDER
    decreases |txs|
  {
    if txs != [] {
      NoCoinbase(txs[..|txs| - 1]);
      assert forall i :: 0 <= i < |txs| - 1 ==> txs[..|txs| - 1][i] == txs[i];
    }
  }

  lemma {:induction false} OnlyCounts(txs: seq<Tx>, i: nat)
    requires OnlyCoinbase(txs, i)
    ensures Coinbases(txs) == 1
    decreases |txs|
  {
    var init := txs[..|txs| - 1];
    assert forall j :: 0 <= j < |init| ==> init[j] == txs[j];
    if i == |txs| - 1 { NoCoinbase(init); } else { OnlyCounts(init, i); }
  }

  lemma {:induction false} CountsOnly(txs: seq<Tx>) returns (i: nat)
    requires Coinbases(txs) == 1
    ensures OnlyCoinbase(txs, i)
    decreases |txs|
  {
    var init := txs[..|txs| - 1];
    assert forall j :: 0 <= j < |init| ==> init[j] == txs[j];
    if txs[|txs| - 1].sender == COINBASE_SENDER {
      NoCoinbase(init);
      i := |txs| - 1;
    } else {
      i := CountsOnly(init);
    }
  }

  lemma OneCoinbaseCounts(txs: seq<Tx>)
    ensures Coinbases(txs) == 1 <==> OneCoinbase(txs)
  {
    if Coinbases(txs) == 1 { var i := CountsOnly(txs); }
    if OneCoinbase(txs) {
      var i :| OnlyCoinbase(txs, i);
      OnlyCounts(txs, i);
    }
  }

  // ---- the validators agree: execution ----------------------------------------

  /** One transaction that passed validation executes exactly when it can be paid for in its turn. */
  lemma StepLaw(env: Env, acc: Accounts, tx: Tx)
    requires ValidEnv(env) && TxValid(env, BLOCK_REWARD, tx) && TotalBalance(acc) + (if IsCoinbase(tx) then tx.amount else 0) <= MAX64
    ensures Step(RuleOf(env), env, BLOCK_REWARD, acc, tx).Some? <==>
            IsCoinbase(tx)
            || (tx.amount <= Balance(acc, tx.sender) && (env.version >= 2 ==> tx.nonce == Nonce(acc, tx.sender) && tx.nonce != MAX64))
  {
    ReservedSendersAreNoAddresses();
    if IsCoinbase(tx) {
      CreditTotal(acc, tx.receiver, tx.amount);
    } else {
      TransferTotal(acc, tx.sender, tx.receiver, tx.amount);
    }
  }

  lemma TurnsDown(env: Env, prefix: seq<Block>, txs: seq<Tx>, n: nat)
    requires n < |txs|
    ensures (forall i :: 0 <= i < n + 1 ==> InTurn(env, prefix, txs, i)) <==>
            (forall i :: 0 <= i < n ==> InTurn(env, prefix, txs, i)) && InTurn(env, prefix, txs, n)
  {
  }

  /** What the ledger shows of an address after part of a block. */
  lemma HeldThen(env: Env, prefix: seq<Block>, txs: seq<Tx>, i: nat, a: Text)
    requires ValidEnv(env) && ValidChain(env, prefix) && i <= |txs| && LedgerOf(env, prefix).Some?
    requires Run(RuleOf(env), env, BLOCK_REWARD, LedgerOf(env, prefix).value.accounts, txs[..i]).Some?
    ensures var acc := Run(RuleOf(env), env, BLOCK_REWARD, LedgerOf(env, prefix).value.accounts, txs[..i]).value;
            && Balance(acc, a) == Holding(env, prefix, txs, i, a)
            && (env.version >= 2 ==> Nonce(acc, a) == Made(prefix, txs, i, a))
  {
    var s := LedgerOf(env, prefix).value;
    BalanceIsNetEffect(env, prefix, a);
    RunEffect(RuleOf(env), env, BLOCK_REWARD, s.accounts, txs[..i], a);
    if env.version >= 2 {
      NoncesCountUp(env, prefix, a);
      RunNonces(env, BLOCK_REWARD, s.accounts, txs[..i], a);
    }
  }

  lemma {:induction false} RunLaw(env: Env, prefix: seq<Block>, txs: seq<Tx>, n: nat)
    requires ValidEnv(env) && ValidChain(env, prefix) && n <= |txs| && LedgerOf(env, prefix).Some?
    requires TotalBalance(LedgerOf(env, prefix).value.accounts) + CoinbaseSum(txs) <= MAX64
    requires forall i :: 0 <= i < |txs| ==> TxValid(env, BLOCK_REWARD, txs[i])
    ensures Run(RuleOf(env), env, BLOCK_REWARD, LedgerOf(env, prefix).value.accounts, txs[..n]).Some? <==>
            forall i :: 0 <= i < n ==> InTurn(env, prefix, txs, i)
    decreases n
  {
    if n > 0 {
      RunLaw(env, prefix, txs, n - 1);
      TurnsDown(env, prefix, txs, n - 1);
      Extend(txs, n - 1);
      if Run(RuleOf(env), env, BLOCK_REWARD, LedgerOf(env, prefix).value.accounts, txs[..n - 1]).Some? {
        TurnLaw(env, prefix, txs, n - 1);
      }
    }
  }

  lemma TurnLaw(env: Env, prefix: seq<Block>, txs: seq<Tx>, i: nat)
    requires ValidEnv(env) && ValidChain(env, prefix) && i < |txs| && LedgerOf(env, prefix).Some?
    requires TotalBalance(LedgerOf(env, prefix).value.accounts) + CoinbaseSum(txs) <= MAX64
    requires TxValid(env, BLOCK_REWARD, txs[i])
    requires Run(RuleOf(env), env, BLOCK_REWARD, LedgerOf(env, prefix).value.accounts, txs[..i]).Some?
    ensures var acc := Run(RuleOf(env), env, BLOCK_REWARD, LedgerOf(env, prefix).value.accounts, txs[..i]).value;
            Step(RuleOf(env), env, BLOCK_REWARD, acc, txs[i]).Some? <==> InTurn(env, prefix, txs, i)
  {
    var s := LedgerOf(env, prefix).value;
    var acc := Run(RuleOf(env), env, BLOCK_REWARD, s.accounts, txs[..i]).value;
    RunTotal(RuleOf(env), env, BLOCK_REWARD, s.accounts, txs[..i]);
    CoinbaseSumMonotone(txs, i + 1);
    Extend(txs, i);
    HeldThen(env, prefix, txs, i, txs[i].sender);
    StepLaw(env, acc, txs[i]);
  }

  // ---- the validators agree: headers -----------------------------------------

  lemma {:induction false} LevelIsRequired(env: Env, prefix: seq<Block>)
    requires ValidEnv(env) && ValidChain(env, prefix)
    ensures RequiredDifficulty(prefix) == Level(prefix) && 1 <= Level(prefix) <= 32
  {
    FirstIndex(env, prefix);
    if |prefix| > 1 {
      BlockFacts(env, prefix, |prefix| - 1);
      DifficultyRule(env, prefix, |prefix| - 1);
      if |prefix| % 10 == 0 { EpochLevel(prefix); }
    }
  }

  lemma EpochLevel(prefix: seq<Block>)
    requires |prefix| >= 10 && |prefix| % 10 == 0 && 1 <= prefix[|prefix| - 1].header.difficulty <= 32
    requires prefix[|prefix| - 1].header.index > 0
    ensures RequiredDifficulty(prefix) == Level(prefix)
  {
    DefaultRetarget(prefix[|prefix| - 10..]);
  }

  lemma LastIndex(env: Env, prefix: seq<Block>)
    requires ValidChain(env, prefix)
    ensures prefix[|prefix| - 1].header.index == |prefix| - 1
  {
    FirstIndex(env, prefix);
    if |prefix| > 1 { BlockFacts(env, prefix, |prefix| - 1); }
  }

  lemma HeaderLaw(env: Env, prefix: seq<Block>, b: Block)
    requires ValidEnv(env) && ValidChain(env, prefix)
    ensures HeaderOk(env, b, prefix) <==> LawfulHeader(env, prefix, b)
  {
    LevelIsRequired(env, prefix);
    LastIndex(env, prefix);
    MedianAtMostParent(env, prefix);
  }

  // ---- the law -----------------------------------------------------------------

  lemma RewardLaw(env: Env, prefix: seq<Block>)
    requires ValidEnv(env) && ValidChain(env, prefix)
    ensures LedgerOf(env, prefix).Some?
    ensures var s := LedgerOf(env, prefix).value;
            && (SnapshotReward(env, s).Some? <==> |prefix| <= (if env.genesis.Some? then 8_640_000 else 14_400_000))
            && (SnapshotReward(env, s).Some? ==> SnapshotReward(env, s) == Some(BLOCK_REWARD) && s.supply + BLOCK_REWARD <= MAX_SUPPLY)
            && Schedule(env, prefix, s)
  {
    ValidChainHasLedger(env, prefix);
    SupplyFollowsHeight(env, prefix);
    RewardIsExact(env, prefix, LedgerOf(env, prefix).value);
  }

  lemma AllLaw(env: Env, txs: seq<Tx>)
    requires ValidEnv(env)
    ensures (forall i :: 0 <= i < |txs| ==> TxValid(env, BLOCK_REWARD, txs[i])) <==> AllLawful(env, txs)
  {
    forall i | 0 <= i < |txs|
      ensures TxValid(env, BLOCK_REWARD, txs[i]) <==> LawfulTx(env, txs[i])
    {
      TxLaw(env, txs[i]);
    }
  }

  lemma StructureLaw(env: Env, prefix: seq<Block>, b: Block)
    requires ValidEnv(env)
    ensures Structure(env, prefix, b, BLOCK_REWARD) <==>
            && b.hash == env.crypto.headerHash(b.header)
            && b.header.merkleRoot == MerkleRoot(env.crypto, Names(env, b.txs))
            && AllLawful(env, b.txs)
            && OneCoinbase(b.txs) && NewNames(env, prefix, b.txs)
  {
    AllLaw(env, b.txs);
    OneCoinbaseCounts(b.txs);
    if AllLawful(env, b.txs) {
      NamesAreIds(env, b.txs);
      NamesAreFresh(env, prefix, b.txs);
    }
  }

  /** A well-formed block executes exactly when every transfer can be paid for in its turn. */
  lemma ExecutionLaw(env: Env, prefix: seq<Block>, b: Block)
    requires ValidEnv(env) && ValidChain(env, prefix) && LedgerOf(env, prefix).Some?
    requires SnapshotReward(env, LedgerOf(env, prefix).value).Some? && Structure(env, prefix, b, BLOCK_REWARD)
    ensures ApplyBlock(env, LedgerOf(env, prefix).value, b, BLOCK_REWARD).Some? <==> forall i :: 0 <= i < |b.txs| ==> InTurn(env, prefix, b.txs, i)
  {
    var s := LedgerOf(env, prefix).value;
    RewardLaw(env, prefix);
    ValidBlockFacts(env, BLOCK_REWARD, b.txs);
    LimitsNeverFire(env, prefix, s, b.txs);
    FreshIdsNonEmpty(ChainIds(prefix), b.txs);
    RunLaw(env, prefix, b.txs, |b.txs|);
    WholeSlice(b.txs);
  }

  /** Over a valid prefix validation accepts exactly the lawful blocks. */
  lemma NextIsLawful(env: Env, prefix: seq<Block>, b: Block)
    requires ValidEnv(env) && ValidChain(env, prefix)
    ensures FullNext(env, b, prefix) <==> LawfulBlock(env, prefix, b)
  {
    IncrementalIsFullValidation(env, prefix, b);
    RewardLaw(env, prefix);
    HeaderLaw(env, prefix, b);
    StructureLaw(env, prefix, b);
    if SnapshotReward(env, LedgerOf(env, prefix).value).Some? && Structure(env, prefix, b, BLOCK_REWARD) {
      ExecutionLaw(env, prefix, b);
    }
  }

  /** The frozen header: no parent, the first second of 2025, no nonce, no difficulty, and a text's hash for a Merkle root. */
  function GenesisHeader(c: Crypto): Header {
    Header(0, seq(64, i => 48), 1_735_689_600, 0, 0, Hex(c.sha(Ascii("SAYANJALI BLOCKCHAIN GENESIS BLOCK - SYJ TOKEN NETWORK"))))
  }

  /** The transactions of the first block are not looked at. */
  lemma GenesisLaw(c: Crypto, b: Block)
    ensures MatchesGenesis(c, b) && b.header.index == 0 <==> b.header == GenesisHeader(c) && b.hash == c.headerHash(GenesisHeader(c))
  {
    assert ZERO_HASH == seq(64, i => 48);
  }

  /** A chain is valid exactly when it starts with the frozen genesis block and every later block is lawful. */
  lemma {:induction false} ChainIsLawful(env: Env, ch: seq<Block>)
    requires ValidEnv(env) && |ch| > 0
    ensures ValidChain(env, ch) <==>
            && ch[0].header == GenesisHeader(env.crypto) && ch[0].hash == env.crypto.headerHash(GenesisHeader(env.crypto))
            && EachLawful(env, ch)
    decreases |ch|
  {
    GenesisLaw(env.crypto, ch[0]);
    if |ch| > 1 {
      var prefix, b := ch[..|ch| - 1], ch[|ch| - 1];
      ChainIsLawful(env, prefix);
      SplitLast(ch);
      ValidStep(env, prefix, b);
      OneMoreLawful(env, prefix, b);
      if ValidChain(env, prefix) { NextIsLawful(env, prefix, b); }
    }
  }

  /** Every block above genesis is lawful over those before it. */
  ghost predicate EachLawful(env: Env, ch: seq<Block>) {
    forall i {:trigger ch[..i]} :: 0 < i < |ch| ==> LawfulBlock(env, ch[..i], ch[i])
  }

  lemma OneMoreLawful(env: Env, prefix: seq<Block>, b: Block)
    requires |prefix| > 0
    ensures EachLawful(env, prefix + [b]) <==> EachLawful(env, prefix) && LawfulBlock(env, prefix, b)
  {
    var ch := prefix + [b];
    assert ch[..|prefix|] == prefix;
    assert forall i {:trigger ch[..i]} {:trigger prefix[..i]} :: 0 < i < |prefix| ==> ch[..i] == prefix[..i] && ch[i] == prefix[i];
  }

  // ---- what follows for every block of a valid chain ---------------------------

  lemma BlockIsLawful(env: Env, ch: seq<Block>, i: nat)
    requires ValidEnv(env) && ValidChain(env, ch) && 0 < i < |ch|
    ensures LawfulBlock(env, ch[..i], ch[i])
  {
    ChainIsLawful(env, ch);
  }

  /** Every transfer on a valid chain was authorised by the address it takes from. */
  lemma TransfersAreAuthorised(env: Env, ch: seq<Block>, i: nat, j: nat)
    requires ValidEnv(env) && ValidChain(env, ch) && 0 < i < |ch| && j < |ch[i].txs|
    requires ch[i].txs[j].sender != COINBASE_SENDER
    ensures var tx := ch[i].txs[j];
            && env.crypto.addressOf(tx.publicKey) == tx.sender && env.crypto.signed(tx)
            && 0 < tx.amount <= 72_000_000_000_000_000 && tx.sender != tx.receiver
            && tx.amount <= Allocated(env, tx.sender) + ReceivedOn(ch[..i], tx.sender) + Received(ch[i].txs[..j], tx.sender)
                            - SpentOn(ch[..i], tx.sender) - Spent(ch[i].txs[..j], tx.sender)
  {
    BlockIsLawful(env, ch, i);
    assert LawfulTx(env, ch[i].txs[j]) && InTurn(env, ch[..i], ch[i].txs, j);
  }

  /** Every block above genesis carries its header's hash, with as many leading zeros as its difficulty. */
  lemma BlocksAreWorked(env: Env, ch: seq<Block>, i: nat)
    requires ValidEnv(env) && ValidChain(env, ch) && 0 < i < |ch|
    ensures ch[i].hash == env.crypto.headerHash(ch[i].header) && |ch[i].hash| == 64
    ensures 1 <= ch[i].header.difficulty <= 32
    ensures forall k :: 0 <= k < ch[i].header.difficulty ==> ch[i].hash[k] == 48
  {
    BlockIsLawful(env, ch, i);
    DifficultyRule(env, ch, i);
  }
}
