/**
 * Blocks that a header cannot tell apart. A header commits to transaction identities, and a version 2
 * identity commits to everything but the signature; so twins may differ in the text of signatures and
 * in fields that are never read. Nothing a chain computes depends on the difference.
 * (internal/transaction/v2.go, internal/chain/chain.go)
 */
module Twins {
  import opened Base
  import opened Protocol
  import opened Retarget
  import opened Rules
  import opened Merkle
  import opened Ledger
  import opened Equivalence
  import opened Nonces
  import opened Tree
  import opened LegacyBinding
  import opened Clashes

  // ---- twins ---------------------------------------------------------------

  /** What the identity of a transaction commits to. */
  function Core(tx: Tx): Tx {
    if tx.version == 2 then tx.(signature := [], txHash := []) else tx.(networkId := [], nonce := 0, txId := [])
  }

  predicate TwinTxs(xs: seq<Tx>, ys: seq<Tx>) {
    |xs| == |ys| && forall i :: 0 <= i < |xs| ==> Core(xs[i]) == Core(ys[i])
  }

  predicate Twin(a: Block, b: Block) {
    a.header == b.header && a.hash == b.hash && TwinTxs(a.txs, b.txs)
  }

  predicate Alike(p: seq<Block>, q: seq<Block>) {
    |p| == |q| && forall i :: 0 <= i < |p| ==> Twin(p[i], q[i])
  }

  lemma TwinTxsInit(xs: seq<Tx>, ys: seq<Tx>)
    requires TwinTxs(xs, ys) && xs != []
    ensures TwinTxs(xs[..|xs| - 1], ys[..|ys| - 1]) && Core(xs[|xs| - 1]) == Core(ys[|ys| - 1])
  {
  }

  lemma TwinsInit(p: seq<Block>, q: seq<Block>)
    requires Alike(p, q) && p != []
    ensures Alike(p[..|p| - 1], q[..|q| - 1]) && Twin(p[|p| - 1], q[|q| - 1])
  {
  }

  lemma TwinsSnoc(p: seq<Block>, q: seq<Block>, a: Block, b: Block)
    requires Alike(p, q) && Twin(a, b)
    ensures Alike(p + [a], q + [b])
  {
  }

  lemma CoreFields(x: Tx, y: Tx)
    requires Core(x) == Core(y)
    ensures x.version == y.version && x.sender == y.sender && x.receiver == y.receiver && x.amount == y.amount
    ensures IdentityHash(x) == IdentityHash(y) && (x.version == 2 ==> x.nonce == y.nonce)
  {
  }

  // ---- transactions --------------------------------------------------------

  lemma StepTwins(rule: Rule, env: Env, reward: u64, a: Accounts, x: Tx, y: Tx)
    requires Core(x) == Core(y) && Step(rule, env, reward, a, x).Some? && Step(rule, env, reward, a, y).Some?
    ensures Step(rule, env, reward, a, x) == Step(rule, env, reward, a, y)
  {
    CoreFields(x, y);
  }

  lemma {:induction false} RunTwins(rule: Rule, env: Env, reward: u64, a: Accounts, xs: seq<Tx>, ys: seq<Tx>)
    requires TwinTxs(xs, ys) && Run(rule, env, reward, a, xs).Some? && Run(rule, env, reward, a, ys).Some?
    ensures Run(rule, env, reward, a, xs) == Run(rule, env, reward, a, ys)
    decreases |xs|
  {
    if xs != [] {
      TwinTxsInit(xs, ys);
      RunTwins(rule, env, reward, a, xs[..|xs| - 1], ys[..|ys| - 1]);
      StepTwins(rule, env, reward, Run(rule, env, reward, a, xs[..|xs| - 1]).value, xs[|xs| - 1], ys[|ys| - 1]);
    }
  }

  /** A twin whose transactions are valid runs wherever the original runs. */
  lemma {:induction false} ValidTwinRuns(env: Env, reward: u64, a: Accounts, xs: seq<Tx>, ys: seq<Tx>)
    requires TwinTxs(xs, ys) && Run(RuleOf(env), env, reward, a, xs).Some?
    requires forall i :: 0 <= i < |ys| ==> TxValid(env, reward, ys[i])
    ensures Run(RuleOf(env), env, reward, a, ys) == Run(RuleOf(env), env, reward, a, xs)
    decreases |xs|
  {
    if xs != [] {
      TwinTxsInit(xs, ys);
      ValidTwinRuns(env, reward, a, xs[..|xs| - 1], ys[..|ys| - 1]);
      var b := Run(RuleOf(env), env, reward, a, xs[..|xs| - 1]).value;
      CoreFields(xs[|xs| - 1], ys[|ys| - 1]);
      assert TxValid(env, reward, ys[|ys| - 1]);
      ValidTwinSteps(env, reward, b, xs[|xs| - 1], ys[|ys| - 1]);
    }
  }

  lemma ValidTwinSteps(env: Env, reward: u64, a: Accounts, x: Tx, y: Tx)
    requires Core(x) == Core(y) && Step(RuleOf(env), env, reward, a, x).Some? && TxValid(env, reward, y)
    ensures Step(RuleOf(env), env, reward, a, y) == Step(RuleOf(env), env, reward, a, x)
  {
    CoreFields(x, y);
  }

  lemma {:induction false} TotalsTwins(m: u64, s: u64, xs: seq<Tx>, ys: seq<Tx>)
    requires TwinTxs(xs, ys)
    ensures Issue(m, s, xs) == Issue(m, s, ys) && Coinbases(xs) == Coinbases(ys)
    decreases |xs|
  {
    if xs != [] {
      TwinTxsInit(xs, ys);
      CoreFields(xs[|xs| - 1], ys[|ys| - 1]);
      TotalsTwins(m, s, xs[..|xs| - 1], ys[..|ys| - 1]);
    }
  }

  lemma IdsTwins(xs: seq<Tx>, ys: seq<Tx>)
    requires TwinTxs(xs, ys)
    ensures Ids(xs) == Ids(ys) && IdSet(xs) == IdSet(ys)
  {
    forall i | 0 <= i < |xs|
      ensures IdentityHash(xs[i]) == IdentityHash(ys[i])
    {
      CoreFields(xs[i], ys[i]);
    }
    forall id
      ensures id in IdSet(xs) <==> id in IdSet(ys)
    {
      if id in IdSet(xs) {
        var i :| 0 <= i < |xs| && IdentityHash(xs[i]) == id;
        assert IdentityHash(ys[i]) == id;
      }
      if id in IdSet(ys) {
        var i :| 0 <= i < |ys| && IdentityHash(ys[i]) == id;
        assert IdentityHash(xs[i]) == id;
      }
    }
  }

  lemma FreshTwins(seen: set<Text>, xs: seq<Tx>, ys: seq<Tx>)
    requires TwinTxs(xs, ys) && Fresh(seen, xs)
    ensures Fresh(seen, ys)
  {
    forall i | 0 <= i < |ys|
      ensures IdentityHash(ys[i]) != [] && FreshAt(seen, ys, i)
    {
      assert FreshAt(seen, xs, i);
      CoreFields(xs[i], ys[i]);
      IdsTwins(xs[..i], ys[..i]);
    }
  }

  // ---- chains --------------------------------------------------------------

  lemma {:induction false} ChainIdsTwins(p: seq<Block>, q: seq<Block>)
    requires Alike(p, q)
    ensures ChainIds(p) == ChainIds(q)
    decreases |p|
  {
    if p != [] {
      TwinsInit(p, q);
      ChainIdsTwins(p[..|p| - 1], q[..|q| - 1]);
      IdsTwins(p[|p| - 1].txs, q[|q| - 1].txs);
    }
  }

  lemma {:induction false} WorkTwins(p: seq<Block>, q: seq<Block>)
    requires Alike(p, q)
    ensures ChainWork(p) == ChainWork(q)
    decreases |p|
  {
    if p != [] {
      TwinsInit(p, q);
      WorkTwins(p[..|p| - 1], q[..|q| - 1]);
    }
  }

  lemma TimesTwins(p: seq<Block>, q: seq<Block>)
    requires Alike(p, q) && |p| > 0
    ensures MedianTimePast(p) == MedianTimePast(q)
  {
    assert Timestamps(Rules.Recent(p)) == Timestamps(Rules.Recent(q));
  }

  lemma DifficultyTwins(p: seq<Block>, q: seq<Block>)
    requires Alike(p, q)
    ensures RequiredDifficulty(p) == RequiredDifficulty(q)
  {
    if |p| >= DIFFICULTY_INTERVAL {
      var v, w := p[|p| - DIFFICULTY_INTERVAL..], q[|q| - DIFFICULTY_INTERVAL..];
      assert v[0] == p[|p| - DIFFICULTY_INTERVAL] && w[0] == q[|q| - DIFFICULTY_INTERVAL];
      assert Span(v) == Span(w) && BaseLevel(v) == BaseLevel(w);
    }
  }

  lemma HeaderTwins(env: Env, b: Block, p: seq<Block>, q: seq<Block>)
    requires Alike(p, q) && |p| > 0
    ensures HeaderOk(env, b, p) == HeaderOk(env, b, q)
  {
    TimesTwins(p, q);
    DifficultyTwins(p, q);
    assert Twin(p[|p| - 1], q[|q| - 1]);
  }

  /** The verdict on a block and the state after it do not depend on which twin of the prefix is held. */
  lemma PrefixTwins(env: Env, b: Block, p: seq<Block>, q: seq<Block>, s: State)
    requires Alike(p, q)
    ensures Incremental(env, b, p, s) == Incremental(env, b, q, s)
  {
    if p != [] { HeaderTwins(env, b, p, q); }
    ChainIdsTwins(p, q);
  }

  lemma ApplyTwins(env: Env, s: State, a: Block, b: Block, reward: u64)
    requires TwinTxs(a.txs, b.txs) && ApplyBlock(env, s, a, reward).Some? && ApplyBlock(env, s, b, reward).Some?
    ensures ApplyBlock(env, s, a, reward) == ApplyBlock(env, s, b, reward)
  {
    RunTwins(RuleOf(env), env, reward, s.accounts, a.txs, b.txs);
    TotalsTwins(s.miningIssued, s.supply, a.txs, b.txs);
    IdsTwins(a.txs, b.txs);
  }

  /** Twin chains that both have a ledger have the same one. */
  lemma {:induction false} LedgerTwins(env: Env, p: seq<Block>, q: seq<Block>)
    requires Alike(p, q) && LedgerOf(env, p).Some? && LedgerOf(env, q).Some?
    ensures LedgerOf(env, p) == LedgerOf(env, q)
    decreases |p|
  {
    if |p| > 1 {
      TwinsInit(p, q);
      var v, w := p[..|p| - 1], q[..|q| - 1];
      LedgerStep(env, p);
      LedgerStep(env, q);
      LedgerTwins(env, v, w);
      var s := LedgerOf(env, v).value;
      Accepted(env, v, p[|p| - 1], s);
      Accepted(env, w, q[|q| - 1], s);
      ApplyTwins(env, s, p[|p| - 1], q[|q| - 1], SnapshotReward(env, s).value);
    }
  }

  /** A block that extends a chain extends every valid twin of it, with the same ledger. */
  lemma {:induction false} TwinExtends(env: Env, p: seq<Block>, q: seq<Block>, b: Block)
    requires ValidEnv(env) && Alike(p, q) && |p| > 0 && ValidChain(env, p) && ValidChain(env, q + [b])
    ensures ValidChain(env, p + [b]) && LedgerOf(env, p + [b]) == LedgerOf(env, q + [b])
  {
    ValidStep(env, q, b);
    LastOf(p, b);
    LastOf(q, b);
    ValidIffLedger(env, p);
    ValidIffLedger(env, q);
    ValidIffLedger(env, q + [b]);
    ValidIffLedger(env, p + [b]);
    LedgerStep(env, q + [b]);
    LedgerStep(env, p + [b]);
    LedgerTwins(env, p, q);
    PrefixTwins(env, b, p, q, LedgerOf(env, p).value);
  }

  /** A twin of a valid next block is valid as soon as its own transactions are. */
  lemma {:induction false} TwinBlockIsValid(env: Env, p: seq<Block>, a: Block, b: Block)
    requires ValidEnv(env) && |p| > 0 && ValidChain(env, p + [a]) && Twin(a, b)
    requires forall i :: 0 <= i < |b.txs| ==> TxValid(env, BLOCK_REWARD, b.txs[i])
    ensures ValidChain(env, p + [b]) && LedgerOf(env, p + [b]) == LedgerOf(env, p + [a])
  {
    ValidStep(env, p, a);
    LastOf(p, a);
    LastOf(p, b);
    ValidChainHasLedger(env, p);
    ValidIffLedger(env, p);
    ValidIffLedger(env, p + [a]);
    ValidIffLedger(env, p + [b]);
    LedgerStep(env, p + [a]);
    LedgerStep(env, p + [b]);
    var s := LedgerOf(env, p).value;
    Accepted(env, p, a, s);
    RewardIsExact(env, p, s);
    TwinIsAccepted(env, p, a, b, s);
  }

  lemma {:induction false} TwinIsAccepted(env: Env, p: seq<Block>, a: Block, b: Block, s: State)
    requires |p| > 0 && Incremental(env, a, p, s).Some? && Twin(a, b) && SnapshotReward(env, s) == Some(BLOCK_REWARD)
    requires forall i :: 0 <= i < |b.txs| ==> TxValid(env, BLOCK_REWARD, b.txs[i])
    ensures Incremental(env, b, p, s) == Incremental(env, a, p, s)
  {
    Accepted(env, p, a, s);
    TwinStructure(env, p, a, b);
    TwinApplies(env, s, a, b);
    SameHeader(env, p, a, b);
  }

  lemma SameHeader(env: Env, p: seq<Block>, a: Block, b: Block)
    requires |p| > 0 && a.header == b.header && a.hash == b.hash
    ensures HeaderOk(env, a, p) == HeaderOk(env, b, p)
  {
  }

  lemma {:induction false} TwinStructure(env: Env, p: seq<Block>, a: Block, b: Block)
    requires Structure(env, p, a, BLOCK_REWARD) && Twin(a, b)
    requires forall i :: 0 <= i < |b.txs| ==> TxValid(env, BLOCK_REWARD, b.txs[i])
    ensures Structure(env, p, b, BLOCK_REWARD)
  {
    FreshTwins(ChainIds(p), a.txs, b.txs);
    IdsTwins(a.txs, b.txs);
    TotalsTwins(0, 0, a.txs, b.txs);
    if env.version < 2 { V1Roots(env, a.txs, b.txs); }
  }

  lemma {:induction false} TwinApplies(env: Env, s: State, a: Block, b: Block)
    requires ApplyBlock(env, s, a, BLOCK_REWARD).Some? && TwinTxs(a.txs, b.txs)
    requires forall i :: 0 <= i < |b.txs| ==> TxValid(env, BLOCK_REWARD, b.txs[i])
    ensures ApplyBlock(env, s, b, BLOCK_REWARD) == ApplyBlock(env, s, a, BLOCK_REWARD)
  {
    IdsTwins(a.txs, b.txs);
    TotalsTwins(s.miningIssued, s.supply, a.txs, b.txs);
    ValidTwinRuns(env, BLOCK_REWARD, s.accounts, a.txs, b.txs);
  }

  /** Under version 1 the root is taken over hashes, which are the identities. */
  lemma V1Roots(env: Env, xs: seq<Tx>, ys: seq<Tx>)
    requires env.version < 2 && TwinTxs(xs, ys)
    requires forall i :: 0 <= i < |ys| ==> TxValid(env, BLOCK_REWARD, ys[i])
    ensures TxHashes(xs) == TxHashes(ys)
  {
    forall i | 0 <= i < |xs|
      ensures xs[i].txHash == ys[i].txHash
    {
      assert TxValid(env, BLOCK_REWARD, ys[i]);
      CoreFields(xs[i], ys[i]);
    }
  }

  /** A version 2 block with one transfer's signature exchanged for another text the verifier takes. */
  function Resigned(b: Block, i: nat, signature: Text): Block
    requires i < |b.txs|
  { b.(txs := b.txs[i := b.txs[i].(signature := signature)]) }

  /** It is a different valid block with the same header and hash, and the ledger cannot tell. */
  lemma {:induction false} ResignedIsValid(env: Env, p: seq<Block>, b: Block, i: nat, signature: Text)
    requires ValidEnv(env) && env.version >= 2 && |p| > 0 && ValidChain(env, p + [b])
    requires i < |b.txs| && !IsCoinbase(b.txs[i]) && signature != b.txs[i].signature
    requires |signature| == 128 && AllHex(signature) && env.crypto.signed(b.txs[i].(signature := signature))
    ensures var d := Resigned(b, i, signature);
            && d != b && d.header == b.header && d.hash == b.hash
            && ValidChain(env, p + [d]) && LedgerOf(env, p + [d]) == LedgerOf(env, p + [b])
  {
    var d := Resigned(b, i, signature);
    assert d.txs[i].signature == signature;
    ValidTransactions(env, p, b);
    ResignedTransactions(env, b, i, signature);
    TwinBlockIsValid(env, p, b, d);
  }

  lemma {:induction false} ValidTransactions(env: Env, p: seq<Block>, b: Block)
    requires ValidEnv(env) && |p| > 0 && ValidChain(env, p + [b])
    ensures forall k :: 0 <= k < |b.txs| ==> TxValid(env, BLOCK_REWARD, b.txs[k])
  {
    ValidStep(env, p, b);
    IncrementalIsFullValidation(env, p, b);
    var s := LedgerOf(env, p).value;
    Accepted(env, p, b, s);
    ValidChainHasLedger(env, p);
    RewardIsExact(env, p, s);
  }

  lemma {:induction false} ResignedTransactions(env: Env, b: Block, i: nat, signature: Text)
    requires env.version >= 2 && i < |b.txs| && !IsCoinbase(b.txs[i])
    requires |signature| == 128 && AllHex(signature) && env.crypto.signed(b.txs[i].(signature := signature))
    requires forall k :: 0 <= k < |b.txs| ==> TxValid(env, BLOCK_REWARD, b.txs[k])
    ensures forall k :: 0 <= k < |b.txs| ==> TxValid(env, BLOCK_REWARD, Resigned(b, i, signature).txs[k])
    ensures Twin(b, Resigned(b, i, signature))
  {
    var d := Resigned(b, i, signature);
    assert TxValid(env, BLOCK_REWARD, b.txs[i]);
    assert TxValid(env, BLOCK_REWARD, d.txs[i]);
  }

  // ---- one hash, two blocks ------------------------------------------------

  /** What validation established of a stored block above genesis. */
  ghost predicate Vetted(env: Env, b: Block) {
    && env.crypto.headerHash(b.header) == b.hash
    && Distinct(Ids(b.txs)) && b.txs != []
    && b.header.merkleRoot == MerkleRoot(env.crypto, Ids(b.txs))
    && (forall i :: 0 <= i < |b.txs| ==> Identified(env, b.txs[i]))
  }

  /** The identity is the hash of the payload. */
  predicate Identified(env: Env, tx: Tx) {
    if env.version >= 2 then tx.version == 2 && tx.txId == env.crypto.txId(PayloadV2(tx))
    else tx.version == 0 && tx.txHash == env.crypto.txHash(PayloadV1(tx))
  }

  lemma {:induction false} StoredIsVetted(env: Env, t: Blocks, h: Text)
    requires ValidEnv(env) && TreeOk(env.crypto, t) && AllValid(env, t) && h in t && t[h].header.index > 0
    ensures Vetted(env, t[h])
  {
    assert NodeOk(env.crypto, t, h) && Sound(env, t, h);
    var b, prefix := t[h], ChainOf(env.crypto, t, t[h].header.previousHash);
    ChainShape(env.crypto, t, t[h].header.previousHash);
    LastOf(prefix, b);
    LedgerStep(env, prefix + [b]);
    var s := LedgerOf(env, prefix).value;
    Accepted(env, prefix, b, s);
    BlockIsVetted(env, prefix, b, SnapshotReward(env, s).value);
  }

  lemma BlockIsVetted(env: Env, prefix: seq<Block>, b: Block, reward: u64)
    requires Structure(env, prefix, b, reward)
    ensures Vetted(env, b)
  {
    FreshDistinct(ChainIds(prefix), b.txs);
    forall i | 0 <= i < |b.txs|
      ensures Identified(env, b.txs[i])
    {
      assert TxValid(env, reward, b.txs[i]);
    }
    if env.version < 2 { assert Ids(b.txs) == TxHashes(b.txs); }
  }

  lemma IdsAreLevel(env: Env, b: Block)
    requires Vetted(env, b)
    ensures Level(Ids(b.txs))
  {
    forall x | x in Ids(b.txs)
      ensures |x| == 64
    {
      var i :| 0 <= i < |b.txs| && Ids(b.txs)[i] == x;
      assert Identified(env, b.txs[i]);
    }
  }

  /** An identity that is also an inner node. */
  lemma NodeIdentity(env: Env, b: Block, x: Bytes) returns (e: Clash)
    requires Vetted(env, b) && |x| == 128 && Sha256Hex(env.crypto, x) in Ids(b.txs)
    ensures Real(env.crypto, e)
  {
    var i :| 0 <= i < |b.txs| && Ids(b.txs)[i] == Sha256Hex(env.crypto, x);
    assert Identified(env, b.txs[i]);
    e := if env.version >= 2 then IdIsNode(PayloadV2(b.txs[i]), x) else HashIsNode(PayloadV1(b.txs[i]), x);
  }

  lemma SameIdentity(env: Env, x: Tx, y: Tx) returns (e: Clash)
    requires Identified(env, x) && Identified(env, y) && IdentityHash(x) == IdentityHash(y) && Core(x) != Core(y)
    ensures Real(env.crypto, e)
  {
    e := if env.version >= 2 then TxIds(PayloadV2(x), PayloadV2(y)) else V1Hashes(PayloadV1(x), PayloadV1(y));
  }

  /** Two vetted blocks under one hash are twins, or two hash inputs clash. */
  lemma {:induction false} VettedTwins(env: Env, a: Block, b: Block) returns (e: Clash)
    requires Vetted(env, a) && Vetted(env, b) && a.hash == b.hash && !Twin(a, b)
    ensures Real(env.crypto, e)
  {
    var xs, ys := Ids(a.txs), Ids(b.txs);
    if a.header != b.header {
      e := Headers(a.header, b.header);
    } else if xs != ys {
      IdsAreLevel(env, a);
      IdsAreLevel(env, b);
      var x, y := LegacyRootBinds(env.crypto, xs, ys);
      if Collides(env.crypto, x, y) {
        e := Nodes(x, y);
      } else if Sha256Hex(env.crypto, x) in xs {
        e := NodeIdentity(env, a, x);
      } else {
        e := NodeIdentity(env, b, x);
      }
    } else {
      assert |a.txs| == |xs| == |ys| == |b.txs|;
      var i :| 0 <= i < |a.txs| && Core(a.txs[i]) != Core(b.txs[i]);
      assert xs[i] == ys[i];
      e := SameIdentity(env, a.txs[i], b.txs[i]);
    }
  }

  /** So are the blocks two valid trees store under one hash. */
  lemma {:induction false} StoredTwins(env: Env, t: Blocks, u: Blocks, h: Text) returns (e: Clash)
    requires ValidEnv(env) && TreeOk(env.crypto, t) && AllValid(env, t) && TreeOk(env.crypto, u) && AllValid(env, u)
    requires h in t && h in u && !Twin(t[h], u[h])
    ensures Real(env.crypto, e)
  {
    assert NodeOk(env.crypto, t, h) && NodeOk(env.crypto, u, h);
    StoredIsVetted(env, t, h);
    StoredIsVetted(env, u, h);
    e := VettedTwins(env, t[h], u[h]);
  }
}
