/**
 * The validation and replay code as it runs: snapshots whose maps are written in place, and
 * the loops over blocks and transactions, each proved against the values of module Ledger.
 */
module LedgerOps {
  import opened Base
  import opened Protocol
  import opened Rules
  import opened Merkle
  import opened Ledger
  import opened Conservation
  import opened Equivalence

  // ---- snapshots (internal/statecommitment/state.go, internal/state/balance.go) ----

  function At(m: map<Text, u64>, k: Text): u64 { if k in m then m[k] else 0 }

  /** Two Go maps read through the union of their keys; a missing entry reads as zero. */
  function View(balances: map<Text, u64>, nonces: map<Text, u64>): Accounts {
    map k | k in balances.Keys + nonces.Keys :: Account(At(balances, k), At(nonces, k))
  }

  lemma ViewReads(balances: map<Text, u64>, nonces: map<Text, u64>, k: Text)
    ensures Balance(View(balances, nonces), k) == At(balances, k)
    ensures Nonce(View(balances, nonces), k) == At(nonces, k)
  {
  }

  lemma ViewWriteBalance(balances: map<Text, u64>, nonces: map<Text, u64>, k: Text, v: u64)
    ensures View(balances[k := v], nonces) == View(balances, nonces)[k := Account(v, At(nonces, k))]
  {
  }

  lemma ViewWriteNonce(balances: map<Text, u64>, nonces: map<Text, u64>, k: Text, n: u64)
    ensures View(balances, nonces[k := n]) == View(balances, nonces)[k := Account(At(balances, k), n)]
  {
  }

  lemma ThawView(a: Accounts, balances: map<Text, u64>, nonces: map<Text, u64>)
    requires balances.Keys == nonces.Keys == a.Keys
    requires forall k :: k in a ==> balances[k] == a[k].balance && nonces[k] == a[k].nonce
    ensures View(balances, nonces) == a
  {
  }

  class Snapshot {
    var balances: map<Text, u64>
    var nonces: map<Text, u64>
    var genesisSupply: u64
    var miningIssued: u64
    var supply: u64

    ghost function Held(): Accounts
      reads this
    { View(balances, nonces) }

    ghost function Value(): State
      reads this
    { State(Held(), genesisSupply, miningIssued, supply) }

    constructor ()
      ensures Value() == State(map[], 0, 0, 0)
      ensures balances == map[] && nonces == map[]
    {
      balances, nonces := map[], map[];
      genesisSupply, miningIssued, supply := 0, 0, 0;
    }

    constructor Of(balances: map<Text, u64>, nonces: map<Text, u64>, genesisSupply: u64, miningIssued: u64, supply: u64)
      ensures Value() == State(View(balances, nonces), genesisSupply, miningIssued, supply)
      ensures this.balances == balances && this.nonces == nonces
    {
      this.balances, this.nonces := balances, nonces;
      this.genesisSupply, this.miningIssued, this.supply := genesisSupply, miningIssued, supply;
    }

    method Clone() returns (copy: Snapshot)
      ensures fresh(copy) && copy.Value() == Value()
      ensures copy.balances == balances && copy.nonces == nonces
    {
      copy := new Snapshot();
      copy.genesisSupply := genesisSupply;
      copy.miningIssued := miningIssued;
      copy.supply := supply;
      copy.balances := balances;
      copy.nonces := nonces;
    }

    /** The copy the chain caches: read through the union of both key sets and never written again. */
    method Freeze() returns (s: State)
      ensures s == Value()
    {
      s := State(View(balances, nonces), genesisSupply, miningIssued, supply);
    }

    constructor Thaw(s: State)
      ensures Value() == s
    {
      balances := map k | k in s.accounts :: s.accounts[k].balance;
      nonces := map k | k in s.accounts :: s.accounts[k].nonce;
      genesisSupply, miningIssued, supply := s.genesisSupply, s.miningIssued, s.supply;
      new;
      ThawView(s.accounts, balances, nonces);
    }

    method Credit(k: Text, v: u64) returns (ok: bool)
      modifies this`balances
      ensures ok == Ledger.Credit(old(Held()), k, v).Some?
      ensures ok ==> Held() == Ledger.Credit(old(Held()), k, v).value
      ensures !ok ==> balances == old(balances)
    {
      ViewReads(balances, nonces, k);
      var cur := At(balances, k);
      if MAX64 - cur < v { return false; }
      ViewWriteBalance(balances, nonces, k, cur + v);
      balances := balances[k := cur + v];
      ok := true;
    }

    method Debit(k: Text, v: u64) returns (ok: bool)
      modifies this`balances
      ensures ok == Ledger.Debit(old(Held()), k, v).Some?
      ensures ok ==> Held() == Ledger.Debit(old(Held()), k, v).value
      ensures !ok ==> balances == old(balances)
    {
      ViewReads(balances, nonces, k);
      var cur := At(balances, k);
      if v > cur { return false; }
      ViewWriteBalance(balances, nonces, k, cur - v);
      balances := balances[k := cur - v];
      ok := true;
    }

    method Transfer(from: Text, to: Text, v: u64) returns (ok: bool)
      modifies this`balances
      ensures ok == Ledger.Transfer(old(Held()), from, to, v).Some?
      ensures ok ==> Held() == Ledger.Transfer(old(Held()), from, to, v).value
    {
      ok := Debit(from, v);
      if ok { ok := Credit(to, v); }
    }

    /** Adds a coinbase to both issuance counters unless one would overflow. */
    method Issue(amount: u64) returns (ok: bool)
      modifies this`miningIssued, this`supply
      ensures ok == (MAX64 - old(miningIssued) >= amount && MAX64 - old(supply) >= amount)
      ensures ok ==> miningIssued == old(miningIssued) + amount && supply == old(supply) + amount
    {
      if MAX64 - miningIssued < amount || MAX64 - supply < amount { return false; }
      miningIssued := miningIssued + amount;
      supply := supply + amount;
      ok := true;
    }

    /** The body shared by the V2 loops: validity, nonce, balances, then the sender's nonce. */
    method ApplyV2(env: Env, reward: u64, tx: Tx) returns (ok: bool)
      modifies this`balances, this`nonces, this`miningIssued, this`supply
      ensures ok == (Step(V2Rule, env, reward, old(Held()), tx).Some? && IssueStep(Issued(old(miningIssued), old(supply)), tx).Some?)
      ensures ok ==> Held() == Step(V2Rule, env, reward, old(Held()), tx).value
      ensures ok ==> Issued(miningIssued, supply) == IssueStep(Issued(old(miningIssued), old(supply)), tx).value
    {
      if IsCoinbase(tx) {
        if !CoinbaseValidV2(env.crypto, env.networkId, reward, tx) { return false; }
        ok := Credit(tx.receiver, tx.amount);
        if ok { ok := Issue(tx.amount); }
        return;
      }
      if !ValidV2(env.crypto, env.networkId, tx) { return false; }
      ViewReads(balances, nonces, tx.sender);
      var expected := At(nonces, tx.sender);
      if tx.nonce != expected || expected == MAX64 { return false; }
      ok := Transfer(tx.sender, tx.receiver, tx.amount);
      if !ok { return; }
      ViewReads(balances, nonces, tx.sender);
      ViewWriteNonce(balances, nonces, tx.sender, expected + 1);
      nonces := nonces[tx.sender := expected + 1];
    }

    /** The body of the V1 loops. */
    method ApplyV1(rule: Rule, env: Env, reward: u64, tx: Tx) returns (ok: bool)
      requires !rule.V2Rule?
      modifies this`balances, this`miningIssued, this`supply
      ensures ok == (Step(rule, env, reward, old(Held()), tx).Some? && IssueStep(Issued(old(miningIssued), old(supply)), tx).Some?)
      ensures ok ==> Held() == Step(rule, env, reward, old(Held()), tx).value
      ensures ok ==> Issued(miningIssued, supply) == IssueStep(Issued(old(miningIssued), old(supply)), tx).value
    {
      if tx.sender == GENESIS_ALLOCATION_SENDER { return false; }
      if IsCoinbase(tx) {
        if rule == V1Incremental && !ValidV1(env.crypto, tx) { return false; }
        if rule != V1Replay && tx.amount != reward { return false; }
        ok := Credit(tx.receiver, tx.amount);
        if ok { ok := Issue(tx.amount); }
      } else {
        if !ValidV1(env.crypto, tx) { return false; }
        ok := Transfer(tx.sender, tx.receiver, tx.amount);
      }
    }

    /** One loop over a block's transactions under one of the four rules. */
    method ApplyAll(rule: Rule, env: Env, reward: u64, txs: seq<Tx>) returns (ok: bool)
      modifies this`balances, this`nonces, this`miningIssued, this`supply
      ensures ok == (Run(rule, env, reward, old(Held()), txs).Some? && Ledger.Issue(old(miningIssued), old(supply), txs).Some?)
      ensures ok ==> Held() == Run(rule, env, reward, old(Held()), txs).value
      ensures ok ==> Issued(miningIssued, supply) == Ledger.Issue(old(miningIssued), old(supply), txs).value
    {
      for i := 0 to |txs|
        invariant Run(rule, env, reward, old(Held()), txs[..i]) == Some(Held())
        invariant Ledger.Issue(old(miningIssued), old(supply), txs[..i]) == Some(Issued(miningIssued, supply))
      {
        Extend(txs, i);
        if rule.V2Rule? { ok := ApplyV2(env, reward, txs[i]); } else { ok := ApplyV1(rule, env, reward, txs[i]); }
        if !ok {
          if Run(rule, env, reward, old(Held()), txs).Some? { RunPrefix(rule, env, reward, old(Held()), txs, i + 1); }
          if Ledger.Issue(old(miningIssued), old(supply), txs).Some? { IssuePrefix(old(miningIssued), old(supply), txs, i + 1); }
          return;
        }
      }
      assert txs[..|txs|] == txs;
      ok := true;
    }

    /** `applyIncrementalBlock`; after a rejection the maps are left half-written and the candidate is dropped. */
    method ApplyBlock(env: Env, b: Block, reward: u64) returns (ok: bool)
      modifies this`balances, this`nonces, this`miningIssued, this`supply
      ensures ok == Ledger.ApplyBlock(env, old(Value()), b, reward).Some?
      ensures ok ==> Value() == Ledger.ApplyBlock(env, old(Value()), b, reward).value
    {
      ok := ApplyAll(RuleOf(env), env, reward, b.txs);
      if !ok { return; }
      var coin, emptyId := CountCoinbases(b.txs);
      ok := coin == 1 && WithinLimits(env, miningIssued, supply) && (env.version >= 2 ==> !emptyId);
    }
  }

  /** The coinbase counter, and whether an identity was empty. */
  method CountCoinbases(txs: seq<Tx>) returns (coin: nat, emptyId: bool)
    ensures coin == Coinbases(txs) && emptyId == ([] in IdSet(txs))
  {
    coin, emptyId := 0, false;
    for i := 0 to |txs|
      invariant coin == Coinbases(txs[..i]) && emptyId == ([] in IdSet(txs[..i]))
    {
      Extend(txs, i);
      IdSetExtend(txs, i);
      if IdentityHash(txs[i]) == [] { emptyId := true; }
      if IsCoinbase(txs[i]) { coin := coin + 1; }
    }
    assert txs[..|txs|] == txs;
  }

  lemma IdSetExtend(txs: seq<Tx>, i: nat)
    requires i < |txs|
    ensures IdSet(txs[..i + 1]) == IdSet(txs[..i]) + {IdentityHash(txs[i])}
  {
    var s := txs[..i + 1];
    forall x | x in IdSet(s)
      ensures x in IdSet(txs[..i]) + {IdentityHash(txs[i])}
    {
      var j :| 0 <= j < |s| && IdentityHash(s[j]) == x;
      if j < i { assert txs[..i][j] == s[j]; }
    }
    forall x | x in IdSet(txs[..i])
      ensures x in IdSet(s)
    {
      var j :| 0 <= j < i && IdentityHash(txs[..i][j]) == x;
      assert s[j] == txs[..i][j];
    }
    assert s[i] == txs[i];
  }

  // ---- the snapshot path ---------------------------------------------------

  /** `genesisSnapshot`. */
  method GenesisSnapshot(env: Env) returns (s: Snapshot)
    requires ValidEnv(env)
    ensures fresh(s) && s.Value() == InitialState(env)
  {
    s := new Snapshot();
    GenesisConserves(env);
    if env.genesis.Some? {
      var xs := env.genesis.value.allocations;
      assert xs[..|xs|] == xs;
      for i := 0 to |xs|
        invariant fresh(s) && s.miningIssued == s.supply == 0
        invariant CreditAll(map[], xs[..i]) == Some(s.Held())
        invariant s.genesisSupply == AllocationTotal(xs[..i]) <= GENESIS_TOTAL
      {
        assert xs[..i + 1][..i] == xs[..i] && xs[..i + 1][i] == xs[i];
        CreditsFit(xs, i);
        var ok := s.Credit(xs[i].recipient, xs[i].amount);
        s.genesisSupply := s.genesisSupply + xs[i].amount;
      }
      s.supply := s.genesisSupply;
    }
  }

  /** A prefix of the allocations stays within their total, so none of its credits overflows. */
  lemma CreditsFit(xs: seq<Allocation>, i: nat)
    requires i < |xs| && AllocationTotal(xs) <= GENESIS_TOTAL
    ensures AllocationTotal(xs[..i + 1]) <= GENESIS_TOTAL && CreditAll(map[], xs[..i + 1]).Some?
  {
    AllocationPrefix(xs, i + 1);
    CreditAllTotal(xs[..i + 1]);
  }

  lemma {:induction false} AllocationPrefix(xs: seq<Allocation>, i: nat)
    requires i <= |xs|
    ensures AllocationTotal(xs[..i]) <= AllocationTotal(xs)
  {
    if i == |xs| {
      assert xs[..i] == xs;
    } else {
      AllocationPrefix(xs[..|xs| - 1], i);
      assert xs[..|xs| - 1][..i] == xs[..i];
    }
  }

  lemma ChainIdsGrow(ch: seq<Block>, i: nat)
    requires i < |ch|
    ensures ChainIds(ch[..i + 1]) == ChainIds(ch[..i]) + IdSet(ch[i].txs)
  {
    assert ch[..i + 1][..i] == ch[..i];
  }

  /** Collects the identities of a prefix, failing on an empty one. */
  method CollectIds(prefix: seq<Block>) returns (seen: set<Text>)
    ensures seen == ChainIds(prefix)
  {
    seen := {};
    for i := 0 to |prefix|
      invariant seen == ChainIds(prefix[..i])
    {
      ChainIdsGrow(prefix, i);
      var txs := prefix[i].txs;
      ghost var before := seen;
      for j := 0 to |txs|
        invariant seen == before + IdSet(txs[..j])
      {
        IdSetExtend(txs, j);
        seen := seen + {IdentityHash(txs[j])};
      }
      assert txs[..|txs|] == txs;
    }
    assert prefix[..|prefix|] == prefix;
  }

  /** The structural loop over a block's transactions. */
  method CheckTransactions(env: Env, seen: set<Text>, txs: seq<Tx>, reward: u64) returns (ok: bool)
    ensures ok == (Fresh(seen, txs) && (forall i :: 0 <= i < |txs| ==> TxValid(env, reward, txs[i])) && Coinbases(txs) == 1)
  {
    var blockSeen := {};
    for i := 0 to |txs|
      invariant blockSeen == IdSet(txs[..i])
      invariant forall j :: 0 <= j < i ==> IdentityHash(txs[j]) != [] && FreshAt(seen, txs, j)
      invariant forall j :: 0 <= j < i ==> TxValid(env, reward, txs[j])
    {
      IdSetExtend(txs, i);
      var id := IdentityHash(txs[i]);
      if id == [] { return false; }
      if id in seen || id in blockSeen {
        assert !FreshAt(seen, txs, i);
        return false;
      }
      blockSeen := blockSeen + {id};
      if !TxValid(env, reward, txs[i]) { return false; }
    }
    var coin, _ := CountCoinbases(txs);
    ok := coin == 1;
  }

  /** `transactionsValid` and `validateV2TransactionsAndStateStructure`. */
  method CheckStructure(env: Env, prefix: seq<Block>, b: Block, reward: u64) returns (ok: bool)
    ensures ok == Structure(env, prefix, b, reward)
  {
    var seen := CollectIds(prefix);
    if env.version >= 2 && [] in seen { return false; }
    ok := CheckTransactions(env, seen, b.txs, reward);
    if !ok { return; }
    var root := ComputeMerkleRoot(env.crypto, if env.version >= 2 then Ids(b.txs) else TxHashes(b.txs));
    ok := root == b.header.merkleRoot && env.crypto.headerHash(b.header) == b.hash;
  }

  /** The header tests common to all validators. */
  method CheckHeader(env: Env, b: Block, prefix: seq<Block>) returns (ok: bool)
    requires |prefix| > 0
    ensures ok == HeaderOk(env, b, prefix)
  {
    var p := prefix[|prefix| - 1];
    if b.header.index != p.header.index + 1 || b.header.previousHash != p.hash { return false; }
    ok := CheckTimestamp(env.version, b.header.timestamp, prefix);
    if !ok { return; }
    var expected := ComputeRequiredDifficulty(prefix);
    ok := b.header.difficulty == expected && ProofOfWork(env.crypto, b, expected);
  }

  /** `validateIncrementalBlock`: the parent snapshot is never written; the result is a new one. */
  method ValidateIncremental(env: Env, b: Block, prefix: seq<Block>, parent: Snapshot) returns (next: Snapshot?)
    ensures next == null <==> Incremental(env, b, prefix, parent.Value()).None?
    ensures next != null ==> fresh(next) && Incremental(env, b, prefix, parent.Value()) == Some(next.Value())
  {
    if |prefix| == 0 { return null; }
    var reward := RewardFrom(env, parent.miningIssued, parent.supply);
    if reward.None? { return null; }
    var ok := CheckHeader(env, b, prefix);
    if !ok { return null; }
    ok := CheckStructure(env, prefix, b, reward.value);
    if !ok { return null; }
    var candidate := parent.Clone();
    ok := candidate.ApplyBlock(env, b, reward.value);
    next := if ok then candidate else null;
  }

  // ---- full replay ---------------------------------------------------------

  /** `miningIssuedFor`. */
  method ComputeMiningIssued(ch: seq<Block>) returns (total: Option<u64>)
    ensures total == MiningIssuedFor(ch)
  {
    total := Some(0);
    for i := 0 to |ch|
      invariant total.Some? && total == MiningIssuedFor(ch[..i])
    {
      assert ch[..i + 1][..i] == ch[..i];
      if ch[i].header.index != 0 {
        total := AddMined(total.value, ch[i].txs);
        if total.None? {
          MiningIssuedPrefix(ch, i + 1);
          return;
        }
      }
    }
    assert ch[..|ch|] == ch;
  }

  lemma {:induction false} MiningIssuedPrefix(ch: seq<Block>, i: nat)
    requires i <= |ch| && MiningIssuedFor(ch[..i]).None?
    ensures MiningIssuedFor(ch).None?
  {
    if i == |ch| {
      assert ch[..i] == ch;
    } else {
      assert ch[..|ch| - 1][..i] == ch[..i];
      MiningIssuedPrefix(ch[..|ch| - 1], i);
    }
  }

  method AddMined(start: u64, txs: seq<Tx>) returns (total: Option<u64>)
    ensures total == MinedIn(start, txs)
  {
    total := Some(start);
    for i := 0 to |txs|
      invariant total.Some? && total == MinedIn(start, txs[..i])
    {
      Extend(txs, i);
      if txs[i].sender == GENESIS_ALLOCATION_SENDER || (IsCoinbase(txs[i]) && MAX64 - total.value < txs[i].amount) {
        MinedInPrefix(start, txs, i + 1);
        return None;
      }
      if IsCoinbase(txs[i]) { total := Some(total.value + txs[i].amount); }
    }
    assert txs[..|txs|] == txs;
  }

  lemma {:induction false} MinedInPrefix(start: u64, txs: seq<Tx>, i: nat)
    requires i <= |txs| && MinedIn(start, txs[..i]).None?
    ensures MinedIn(start, txs).None?
  {
    if i == |txs| {
      assert txs[..i] == txs;
    } else {
      assert txs[..|txs| - 1][..i] == txs[..i];
      MinedInPrefix(start, txs[..|txs| - 1], i);
    }
  }

  /** `supplyFor`: the additions wrap at 64 bits. */
  method ComputeSupply(ch: seq<Block>) returns (s: u64)
    ensures s == SupplyFor(ch)
  {
    s := 0;
    for i := 0 to |ch|
      invariant s == SupplyFor(ch[..i])
    {
      assert ch[..i + 1][..i] == ch[..i];
      if ch[i].header.index != 0 { s := AddCoinbases(s, ch[i].txs); }
    }
    assert ch[..|ch|] == ch;
  }

  method AddCoinbases(start: u64, txs: seq<Tx>) returns (s: u64)
    ensures s == (start + CoinbaseSum(txs)) % TWO64
  {
    s := start;
    for i := 0 to |txs|
      invariant s == (start + CoinbaseSum(txs[..i])) % TWO64
    {
      Extend(txs, i);
      if IsCoinbase(txs[i]) {
        WrapAdd(start + CoinbaseSum(txs[..i]), txs[i].amount);
        s := (s + txs[i].amount) % TWO64;
      }
    }
    assert txs[..|txs|] == txs;
  }

  lemma WrapAdd(a: nat, b: nat)
    ensures (a % TWO64 + b) % TWO64 == (a + b) % TWO64
  {
  }

  /** The working variables of a replay agree with its value. */
  ghost predicate Holds(s: Snapshot, seen: set<Text>, r: Replayed)
    reads s
  {
    s.Held() == r.accounts && s.miningIssued == r.mined && s.supply == r.supply && seen == r.seen
  }

  /** `replayV2State`. */
  method ReplayV2(env: Env, ch: seq<Block>) returns (s: Snapshot?)
    requires ValidEnv(env) && env.version >= 2
    ensures s != null <==> Replay(env, ch).Some?
    ensures s != null ==> fresh(s) && Holds(s, Replay(env, ch).value.seen, Replay(env, ch).value)
    ensures s != null ==> s.genesisSupply == GenesisSupply(env)
  {
    var work := GenesisSnapshot(env);
    var seen: set<Text> := {};
    ghost var r := InitialReplay(env);
    if |ch| > 0 {
      var ok;
      ok, seen, r := ReplayAllV2(env, ch, work);
      if !ok { return null; }
    }
    s := if WithinLimits(env, work.miningIssued, work.supply) then work else null;
  }

  /** The loop over the blocks above genesis. */
  method ReplayAllV2(env: Env, ch: seq<Block>, work: Snapshot) returns (ok: bool, seen: set<Text>, ghost r: Replayed)
    requires |ch| > 0 && Holds(work, {}, InitialReplay(env))
    modifies work`balances, work`nonces, work`miningIssued, work`supply
    ensures ok == ReplayBlocksV2(env, ch).Some?
    ensures ok ==> ReplayBlocksV2(env, ch) == Some(r) && Holds(work, seen, r)
  {
    seen, r, ok := {}, InitialReplay(env), true;
    for i := 1 to |ch|
      invariant ReplayBlocksV2(env, ch[..i]) == Some(r) && Holds(work, seen, r)
    {
      Snoc(ch, i);
      ok, seen := ReplayOneV2(env, ch[..i], ch[i], work, seen, r);
      if !ok {
        ReplayPrefixV2(env, ch, i + 1);
        return;
      }
      r := ReplayBlocksV2(env, ch[..i + 1]).value;
    }
    WholeSlice(ch);
    ok := true;
  }

  lemma {:induction false} ReplayPrefixV2(env: Env, ch: seq<Block>, i: nat)
    requires 0 < i <= |ch| && ReplayBlocksV2(env, ch[..i]).None?
    ensures ReplayBlocksV2(env, ch).None?
  {
    if i == |ch| {
      assert ch[..i] == ch;
    } else {
      assert ch[..|ch| - 1][..i] == ch[..i];
      ReplayPrefixV2(env, ch[..|ch| - 1], i);
    }
  }

  /** One iteration of the block loop: reward, transactions, coinbase count and Merkle root. */
  method ReplayOneV2(env: Env, prefix: seq<Block>, b: Block, work: Snapshot, seen: set<Text>, ghost r: Replayed)
    returns (ok: bool, seen': set<Text>)
    requires |prefix| > 0 && Holds(work, seen, r) && ReplayBlocksV2(env, prefix) == Some(r)
    modifies work`balances, work`nonces, work`miningIssued, work`supply
    ensures ok == ReplayBlocksV2(env, prefix + [b]).Some?
    ensures ok ==> Holds(work, seen', ReplayBlocksV2(env, prefix + [b]).value)
  {
    seen' := seen;
    assert (prefix + [b])[..|prefix|] == prefix;
    var mined := ComputeMiningIssued(prefix);
    if mined.None? { return false, seen; }
    var reward := MiningReward(mined.value);
    if reward.None? { return false, seen; }
    var unseen := CheckFresh(seen, b.txs);
    ok := work.ApplyAll(V2Rule, env, reward.value, b.txs);
    if !ok || !unseen { return false, seen; }
    var coin, _ := CountCoinbases(b.txs);
    var root := ComputeMerkleRoot(env.crypto, Ids(b.txs));
    ok := coin == 1 && root == b.header.merkleRoot;
    seen' := seen + IdSet(b.txs);
  }

  /** The duplicate tests of a replayed block. */
  method CheckFresh(seen: set<Text>, txs: seq<Tx>) returns (ok: bool)
    ensures ok == Fresh(seen, txs)
  {
    var blockSeen := {};
    for i := 0 to |txs|
      invariant blockSeen == IdSet(txs[..i])
      invariant forall j :: 0 <= j < i ==> IdentityHash(txs[j]) != [] && FreshAt(seen, txs, j)
    {
      IdSetExtend(txs, i);
      var id := IdentityHash(txs[i]);
      if id == [] || id in seen || id in blockSeen {
        assert id == [] || !FreshAt(seen, txs, i);
        return false;
      }
      blockSeen := blockSeen + {id};
    }
    ok := true;
  }

  method CheckFreshOrEmpty(seen: set<Text>, txs: seq<Tx>) returns (ok: bool)
    ensures ok == FreshOrEmpty(seen, txs)
  {
    var blockSeen := {};
    for i := 0 to |txs|
      invariant blockSeen == IdSet(txs[..i])
      invariant forall j :: 0 <= j < i ==> IdentityHash(txs[j]) == [] || FreshAt(seen, txs, j)
    {
      IdSetExtend(txs, i);
      var id := IdentityHash(txs[i]);
      if id != [] && (id in seen || id in blockSeen) {
        assert !FreshAt(seen, txs, i);
        return false;
      }
      blockSeen := blockSeen + {id};
    }
    ok := true;
  }

  /** `replayBalances`. */
  method ReplayV1(env: Env, ch: seq<Block>) returns (s: Snapshot?)
    requires ValidEnv(env) && env.version == 1
    ensures s != null <==> Replay(env, ch).Some?
    ensures s != null ==> fresh(s) && Holds(s, Replay(env, ch).value.seen, Replay(env, ch).value)
    ensures s != null ==> s.genesisSupply == GenesisSupply(env)
  {
    var work := GenesisSnapshot(env);
    var seen: set<Text> := {};
    ghost var r := InitialReplay(env);
    for i := 0 to |ch|
      invariant fresh(work) && Holds(work, seen, r) && work.genesisSupply == GenesisSupply(env)
      invariant ReplayBlocksV1(env, ch[..i]) == Some(r)
    {
      assert ch[..i + 1][..i] == ch[..i];
      if ch[i].header.index != 0 {
        var unseen := CheckFreshOrEmpty(seen, ch[i].txs);
        var ok := work.ApplyAll(V1Replay, env, 0, ch[i].txs);
        if !ok || !unseen {
          ReplayPrefixV1(env, ch, i + 1);
          return null;
        }
        seen := seen + (IdSet(ch[i].txs) - {[]});
        r := ReplayBlockV1(env, r, ch[i]).value;
      }
    }
    assert ch[..|ch|] == ch;
    s := if WithinLimits(env, work.miningIssued, work.supply) then work else null;
  }

  lemma {:induction false} ReplayPrefixV1(env: Env, ch: seq<Block>, i: nat)
    requires i <= |ch| && ReplayBlocksV1(env, ch[..i]).None?
    ensures ReplayBlocksV1(env, ch).None?
  {
    if i == |ch| {
      assert ch[..i] == ch;
    } else {
      assert ch[..|ch| - 1][..i] == ch[..i];
      ReplayPrefixV1(env, ch[..|ch| - 1], i);
    }
  }

  // ---- full validation -----------------------------------------------------

  method ComputePrefixReward(env: Env, prefix: seq<Block>) returns (reward: Option<u64>)
    ensures reward == PrefixReward(env, prefix)
  {
    if env.version >= 2 || env.genesis.Some? {
      var mined := ComputeMiningIssued(prefix);
      reward := if mined.None? then None else MiningReward(mined.value);
    } else {
      var s := ComputeSupply(prefix);
      reward := SupplyReward(s);
    }
  }

  /** `validateV2TransactionsAndState`: it keeps no issuance counters, and with one coinbase they could not overflow. */
  method CheckFullTransactionsV2(env: Env, prefix: seq<Block>, b: Block, reward: u64) returns (ok: bool)
    requires ValidEnv(env) && env.version >= 2 && reward <= BLOCK_REWARD
    ensures ok == FullTransactionsV2(env, prefix, b, reward)
  {
    var work := ReplayV2(env, prefix);
    if work == null { return false; }
    var seen := CollectIds(prefix);
    if [] in seen { return false; }
    ok := CheckFresh(seen, b.txs);
    if !ok { return; }
    ReplaySupply(env, prefix);
    ok := ApplyOneCoinbase(env, work, b.txs, reward);
    if !ok { return; }
    var root := ComputeMerkleRoot(env.crypto, Ids(b.txs));
    ok := root == b.header.merkleRoot && env.crypto.headerHash(b.header) == b.hash;
  }

  method ApplyOneCoinbase(env: Env, work: Snapshot, txs: seq<Tx>, reward: u64) returns (ok: bool)
    requires env.version >= 2 && reward <= BLOCK_REWARD && work.miningIssued <= work.supply <= MAX_SUPPLY
    modifies work
    ensures ok == (Run(V2Rule, env, reward, old(work.Held()), txs).Some? && Coinbases(txs) == 1)
  {
    OneCoinbaseFits(env, reward, Replayed(work.Held(), work.miningIssued, work.supply, {}), txs);
    ok := work.ApplyAll(V2Rule, env, reward, txs);
    var coin, _ := CountCoinbases(txs);
    ok := ok && coin == 1;
  }

  lemma ReplaySupply(env: Env, ch: seq<Block>)
    requires env.version >= 2 && Replay(env, ch).Some?
    ensures Replay(env, ch).value.supply == GenesisSupply(env) + Replay(env, ch).value.mined <= MAX_SUPPLY
  {
    ReplayBlocksSupply(env, ch);
  }

  lemma {:induction false} ReplayBlocksSupply(env: Env, ch: seq<Block>)
    requires ReplayBlocksV2(env, ch).Some?
    ensures ReplayBlocksV2(env, ch).value.supply == GenesisSupply(env) + ReplayBlocksV2(env, ch).value.mined
    decreases |ch|
  {
    if |ch| > 1 {
      ReplayBlocksSupply(env, ch[..|ch| - 1]);
      var r := ReplayBlocksV2(env, ch[..|ch| - 1]).value;
      IssueExact(r.mined, r.supply, ch[|ch| - 1].txs);
    }
  }

  lemma OneCoinbaseFits(env: Env, reward: u64, r: Replayed, txs: seq<Tx>)
    requires env.version >= 2 && reward <= BLOCK_REWARD && r.supply <= MAX_SUPPLY && r.mined <= r.supply
    ensures Run(V2Rule, env, reward, r.accounts, txs).Some? && Coinbases(txs) == 1 ==> Issue(r.mined, r.supply, txs).Some?
  {
    if Run(V2Rule, env, reward, r.accounts, txs).Some? && Coinbases(txs) == 1 {
      V2RunValidates(env, reward, r.accounts, txs);
      CoinbaseSumIsReward(txs, reward);
      IssueExact(r.mined, r.supply, txs);
    }
  }

  /** `stateTransition`. */
  method CheckStateTransition(env: Env, prefix: seq<Block>, b: Block, reward: u64) returns (ok: bool)
    requires ValidEnv(env) && env.version == 1
    ensures ok == StateTransition(env, prefix, b, reward)
  {
    var work := ReplayV1(env, prefix);
    if work == null { return false; }
    ok := work.ApplyAll(V1Transition, env, reward, b.txs);
    if !ok { return; }
    var coin, _ := CountCoinbases(b.txs);
    ok := coin == 1 && (env.genesis.Some? ==> WithinLimits(env, work.miningIssued, work.supply)) && work.supply <= MAX_SUPPLY;
  }

  /** `validateNext` and `validateNextV2`. */
  method ValidateNext(env: Env, b: Block, prefix: seq<Block>) returns (ok: bool)
    requires ValidEnv(env) && |prefix| > 0
    ensures ok == FullNext(env, b, prefix)
  {
    ok := CheckHeader(env, b, prefix);
    if !ok { return; }
    var reward := ComputePrefixReward(env, prefix);
    if reward.None? { return false; }
    if env.version >= 2 {
      ok := CheckFullTransactionsV2(env, prefix, b, reward.value);
    } else {
      ok := CheckStructure(env, prefix, b, reward.value);
      if ok { ok := CheckStateTransition(env, prefix, b, reward.value); }
    }
  }

  /** The first `n` blocks pass one after the other; looked into by `PassingStep` only. */
  predicate Passing(env: Env, ch: seq<Block>, n: nat)
    requires n <= |ch|
    decreases n, 0
  {
    n <= 1 || PassingBy(env, ch, n - 1)
  }

  predicate PassingBy(env: Env, ch: seq<Block>, i: nat)
    requires 0 < i < |ch|
    decreases i, 2
  {
    PassingAt(env, ch, i)
  }

  predicate PassingAt(env: Env, ch: seq<Block>, i: nat)
    requires 0 < i < |ch|
    decreases i, 1
  {
    Passing(env, ch, i) && FullNext(env, ch[i], ch[..i])
  }

  lemma {:induction false} PassingStep(env: Env, ch: seq<Block>, i: nat)
    requires 0 < i < |ch|
    ensures Passing(env, ch, i + 1) <==> Passing(env, ch, i) && FullNext(env, ch[i], ch[..i])
  {
    assert Passing(env, ch, i + 1) == PassingBy(env, ch, i);
    assert PassingBy(env, ch, i) == PassingAt(env, ch, i);
  }

  /** On a chain walked down to an index-zero block this is validity. */
  lemma {:induction false} PassingIsValid(env: Env, ch: seq<Block>, n: nat)
    requires 0 < n <= |ch| && ch[0].header.index == 0
    ensures ValidChain(env, ch[..n]) <==> MatchesGenesis(env.crypto, ch[0]) && Passing(env, ch, n)
    decreases n
  {
    if n == 1 {
      assert |ch[..1]| == 1 && ch[..1][0] == ch[0];
    } else {
      PassingIsValid(env, ch, n - 1);
      PassingStep(env, ch, n - 1);
      Snoc(ch, n - 1);
      ValidStep(env, ch[..n - 1], ch[n - 1]);
    }
  }

  lemma {:induction false} PassingDown(env: Env, ch: seq<Block>, i: nat, n: nat)
    requires i <= n <= |ch| && Passing(env, ch, n)
    ensures Passing(env, ch, i)
    decreases n
  {
    if i < n && n > 1 {
      PassingInit(env, ch, n);
      PassingDown(env, ch, i, n - 1);
    }
  }

  lemma {:induction false} PassingInit(env: Env, ch: seq<Block>, n: nat)
    requires 1 < n <= |ch| && Passing(env, ch, n)
    ensures Passing(env, ch, n - 1)
  {
    PassingStep(env, ch, n - 1);
  }

  /** `validateChain`, which tests no index of the first block. */
  method ValidateChain(env: Env, ch: seq<Block>) returns (ok: bool)
    requires ValidEnv(env)
    ensures ok == (|ch| > 0 && MatchesGenesis(env.crypto, ch[0]) && Passing(env, ch, |ch|))
    ensures |ch| > 0 && ch[0].header.index == 0 ==> ok == ValidChain(env, ch)
  {
    if |ch| == 0 { return false; }
    ok := ValidateLinks(env, ch);
    if ch[0].header.index == 0 {
      PassingIsValid(env, ch, |ch|);
      WholeSlice(ch);
    }
  }

  method ValidateLinks(env: Env, ch: seq<Block>) returns (ok: bool)
    requires ValidEnv(env) && |ch| > 0
    ensures ok == (MatchesGenesis(env.crypto, ch[0]) && Passing(env, ch, |ch|))
  {
    if !MatchesGenesis(env.crypto, ch[0]) { return false; }
    for i := 1 to |ch|
      invariant Passing(env, ch, i)
    {
      ok := ValidateAt(env, ch, i);
      if !ok {
        if Passing(env, ch, |ch|) { PassingDown(env, ch, i + 1, |ch|); }
        return;
      }
    }
    ok := true;
  }

  method ValidateAt(env: Env, ch: seq<Block>, i: nat) returns (ok: bool)
    requires ValidEnv(env) && 0 < i < |ch| && Passing(env, ch, i)
    ensures ok == Passing(env, ch, i + 1)
  {
    ok := ValidateNext(env, ch[i], ch[..i]);
    PassingStep(env, ch, i);
  }
}
