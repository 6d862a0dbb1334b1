/** What a chain object holds, as values, and what has to be true of it. (internal/chain/chain.go) */
module ChainMemory {
  import opened Base
  import opened Protocol
  import opened Retarget
  import opened Rules
  import opened Ledger
  import opened LedgerOps
  import opened Conservation
  import opened Equivalence
  import opened Checkpoint
  import opened Tree
  import opened Wallets
  import opened Persist
  import Journal

  // ---- pieces of `Accept` as values ----------------------------------------

  /** The identities `confirmedTx` indexes: those of the blocks above genesis. */
  function ConfirmedIds(ch: seq<Block>): set<Text> {
    if ch == [] then {}
    else ConfirmedIds(ch[..|ch| - 1]) + (if ch[|ch| - 1].header.index == 0 then {} else IdSet(ch[|ch| - 1].txs))
  }

  predicate ConfirmedAt(ch: seq<Block>, k: Text, i: nat, j: nat) {
    i < |ch| && ch[i].header.index != 0 && j < |ch[i].txs| && (if ch[i].txs[j].version == 2 then ch[i].txs[j].txId else ch[i].txs[j].txHash) == k
  }

  /** An identity is confirmed exactly when some block above genesis holds a transaction with it. */
  lemma {:induction false} ConfirmedExactly(ch: seq<Block>, k: Text)
    ensures k in ConfirmedIds(ch) <==> exists i: nat, j: nat :: ConfirmedAt(ch, k, i, j)
    decreases |ch|
  {
    if ch != [] {
      var init, last := ch[..|ch| - 1], |ch| - 1;
      ConfirmedExactly(init, k);
      if exists i: nat, j: nat :: ConfirmedAt(init, k, i, j) {
        var i: nat, j: nat :| ConfirmedAt(init, k, i, j);
        assert ConfirmedAt(ch, k, i, j);
      }
      if ch[last].header.index != 0 && k in IdSet(ch[last].txs) {
        var j :| 0 <= j < |ch[last].txs| && IdentityHash(ch[last].txs[j]) == k;
        assert ConfirmedAt(ch, k, last, j);
      }
      if exists i: nat, j: nat :: ConfirmedAt(ch, k, i, j) {
        var i: nat, j: nat :| ConfirmedAt(ch, k, i, j);
        if i < last { assert ConfirmedAt(init, k, i, j); } else { assert IdentityHash(ch[last].txs[j]) == k; }
      }
    }
  }

  predicate Resubmittable(tx: Tx) { !IsCoinbase(tx) && tx.version == 2 }

  function ResubmittableIn(txs: seq<Tx>): seq<Tx> {
    if txs == [] then [] else ResubmittableIn(txs[..|txs| - 1]) + (if Resubmittable(txs[|txs| - 1]) then [txs[|txs| - 1]] else [])
  }

  function ResubmittableOf(ch: seq<Block>): seq<Tx> {
    if ch == [] then [] else ResubmittableOf(ch[..|ch| - 1]) + ResubmittableIn(ch[|ch| - 1].txs)
  }

  /** What a reorganisation from `losing` to a chain on `prefix` hands back to the mempool. */
  function LosingTransactions(losing: seq<Block>, prefix: seq<Block>): seq<Tx> {
    var n := CommonLength(losing, prefix);
    if n == 0 then [] else ResubmittableOf(losing[n..])
  }

  /** The checkpoint record a block owes at every sixteenth height. */
  ghost function OwedRecord(c: Crypto, b: Block, s: State): seq<Journal.Record> {
    if b.header.index % 16 == 0 then [Journal.Record(3, b.hash + Encode(c, s))] else []
  }

  /** The checkpoint records owed by the blocks from `start` up to `i`. */
  ghost function OwedRecords(env: Env, ch: seq<Block>, start: nat, i: nat): seq<Journal.Record>
    requires i <= |ch|
  {
    if i <= start then []
    else OwedRecords(env, ch, start, i - 1) +
         (if LedgerOf(env, ch[..i]).Some? then OwedRecord(env.crypto, ch[i - 1], LedgerOf(env, ch[..i]).value) else [])
  }

  /** What a new tip adds to the journal: the checkpoint it owes, then the tip record. */
  ghost function TipRecords(env: Env, ch: seq<Block>): seq<Journal.Record> {
    if |ch| > 0 && LedgerOf(env, ch).Some? then
      OwedRecord(env.crypto, ch[|ch| - 1], LedgerOf(env, ch).value) + [Journal.Record(2, ch[|ch| - 1].hash)]
    else []
  }

  /** What `Accept` adds to the journal: a block record if the block was stored, and a new tip's records. */
  ghost function AcceptRecords(env: Env, codec: Journal.Codec, b: Block, stored: bool, reason: Reason, active: seq<Block>): seq<Journal.Record> {
    (if stored then [Journal.Record(1, codec.enc(b))] else []) + (if reason == Best then TipRecords(env, active) else [])
  }

  lemma StoredRecords(env: Env, codec: Journal.Codec, b: Block, reason: Reason, active: seq<Block>, log: seq<Journal.Record>)
    ensures log + [Journal.Record(1, codec.enc(b))] + (if reason == Best then TipRecords(env, active) else [])
            == log + AcceptRecords(env, codec, b, true, reason, active)
  {
  }

  function Reversed<T>(s: seq<T>): seq<T> { seq(|s|, i requires 0 <= i < |s| => s[|s| - 1 - i]) }

  /** The index above the newest checkpointed block of a chain, at least one. */
  function FirstUncovered(ch: seq<Block>, cps: map<Text, Bytes>): (n: nat)
    ensures 1 <= n && (|ch| > 0 ==> n <= |ch|)
  {
    if ch == [] then 1
    else if ch[|ch| - 1].hash in cps then |ch|
    else FirstUncovered(ch[..|ch| - 1], cps)
  }

  /** It lies directly above the newest block with a checkpoint, or above genesis. */
  lemma {:induction false} FirstUncoveredExactly(ch: seq<Block>, cps: map<Text, Bytes>)
    ensures var n := FirstUncovered(ch, cps);
            && (forall i :: n <= i < |ch| ==> ch[i].hash !in cps)
            && (n > 1 ==> n <= |ch| && ch[n - 1].hash in cps)
    decreases |ch|
  {
    if ch != [] && ch[|ch| - 1].hash !in cps { FirstUncoveredExactly(ch[..|ch| - 1], cps); }
  }

  /** Every checkpoint owed by the blocks from `start` on fits a record. */
  ghost predicate OwedFit(env: Env, ch: seq<Block>, start: nat) {
    forall i {:trigger OwedFits(env, ch, i)} :: start <= i < |ch| ==> OwedFits(env, ch, i)
  }

  ghost predicate OwedFits(env: Env, ch: seq<Block>, i: nat)
    requires i < |ch|
  {
    CheckpointDue(ch[i]) ==> LedgerOf(env, ch[..i + 1]).Some? && FitsRecord(LedgerOf(env, ch[..i + 1]).value)
  }

  lemma OwedStep(env: Env, ch: seq<Block>, start: nat, i: nat)
    requires start <= i < |ch|
    ensures OwedFit(env, ch[..i + 1], start) <==> OwedFit(env, ch[..i], start) && OwedFits(env, ch, i)
  {
    var longer, shorter := ch[..i + 1], ch[..i];
    assert longer[i] == ch[i] && longer[..i + 1] == longer;
    if OwedFit(env, shorter, start) && OwedFits(env, ch, i) {
      forall j | start <= j < |longer|
        ensures OwedFits(env, longer, j)
      {
        if j < i {
          assert OwedFits(env, shorter, j);
          assert shorter[..j + 1] == longer[..j + 1];
        }
      }
    }
    if OwedFit(env, longer, start) {
      assert OwedFits(env, longer, i);
      forall j | start <= j < |shorter|
        ensures OwedFits(env, shorter, j)
      {
        assert OwedFits(env, longer, j);
        assert shorter[..j + 1] == longer[..j + 1];
      }
    }
  }

  lemma OwedBy(env: Env, ch: seq<Block>, i: nat, s: State)
    requires i < |ch| && LedgerOf(env, ch[..i + 1]) == Some(s)
    ensures OwedFits(env, ch, i) == (CheckpointDue(ch[i]) ==> FitsRecord(s))
  {
  }

  /** The state after `i` blocks, if every checkpoint owed so far fits a record. */
  ghost function OwedSoFar(env: Env, ch: seq<Block>, start: nat, i: nat): Option<Option<State>> {
    if i <= |ch| && OwedFit(env, ch[..i], start) then Some(LedgerOf(env, ch[..i])) else None
  }

  lemma OwedAdvance(env: Env, ch: seq<Block>, start: nat, i: nat, ok: bool, next: State)
    requires i < |ch| && start <= i && OwedSoFar(env, ch, start, i).Some?
    requires ok == OwedFits(env, ch, i) && LedgerOf(env, ch[..i + 1]) == Some(next)
    ensures OwedSoFar(env, ch, start, i + 1) == if ok then Some(Some(next)) else None
  {
    OwedStep(env, ch, start, i);
  }

  lemma OwedEnd(env: Env, ch: seq<Block>, start: nat, i: nat)
    requires start <= i <= |ch| && (OwedSoFar(env, ch, start, i).Some? ==> i == |ch|)
    ensures OwedFit(env, ch, start) == OwedSoFar(env, ch, start, i).Some?
    ensures OwedSoFar(env, ch, start, i).Some? ==> OwedSoFar(env, ch, start, i) == Some(LedgerOf(env, ch))
  {
    if OwedSoFar(env, ch, start, i).Some? { WholeSlice(ch); } else { OwedPrefix(env, ch, start, i); }
  }

  lemma OwedPrefix(env: Env, ch: seq<Block>, start: nat, i: nat)
    requires i <= |ch| && !OwedFit(env, ch[..i], start)
    ensures !OwedFit(env, ch, start)
  {
    var j :| start <= j < i && !OwedFits(env, ch[..i], j);
    assert ch[..i][..j + 1] == ch[..j + 1] && ch[..i][j] == ch[j];
    assert !OwedFits(env, ch, j);
  }

  /** A cached snapshot is the state of its own block's chain. */
  ghost predicate CachedOk(env: Env, t: Blocks, cache: map<Text, State>, h: Text)
    requires TreeOk(env.crypto, t) && h in cache
  {
    h in t && LedgerOf(env, ChainOf(env.crypto, t, h)) == Some(cache[h])
  }

  ghost predicate CacheOk(env: Env, t: Blocks, cache: map<Text, State>)
    requires TreeOk(env.crypto, t)
  {
    forall h {:trigger CachedOk(env, t, cache, h)} :: h in cache ==> CachedOk(env, t, cache, h)
  }

  lemma CacheGrows(env: Env, t: Blocks, cache: map<Text, State>, h: Text, f: State)
    requires TreeOk(env.crypto, t) && CacheOk(env, t, cache)
    requires h in t && LedgerOf(env, ChainOf(env.crypto, t, h)) == Some(f)
    ensures CacheOk(env, t, cache[h := f])
  {
    var grown := cache[h := f];
    forall k | k in grown
      ensures CachedOk(env, t, grown, k)
    {
      if k != h { assert CachedOk(env, t, cache, k); }
    }
  }

  lemma CacheSurvives(env: Env, t: Blocks, u: Blocks, cache: map<Text, State>)
    requires TreeOk(env.crypto, t) && TreeOk(env.crypto, u) && Extends(t, u) && CacheOk(env, t, cache)
    ensures CacheOk(env, u, cache)
  {
    forall h | h in cache
      ensures CachedOk(env, u, cache, h)
    {
      assert CachedOk(env, t, cache, h);
      ChainMonotone(env.crypto, t, u, h);
    }
  }

  // ---- what a chain publishes ----------------------------------------------

  /** The published fields of a chain object, as one value. */
  datatype Front = Front(
    tip: Text, active: seq<Block>, balances: map<Text, u64>, nonces: map<Text, u64>,
    genesisSupply: u64, miningIssued: u64, supply: u64, confirmedTx: set<Text>, stateRoot: Text)

  /** The published balances, nonces, totals and root are those of a state. */
  ghost predicate Shows(env: Env, f: Front, s: State) {
    && View(f.balances, f.nonces) == s.accounts
    && f.genesisSupply == s.genesisSupply && f.miningIssued == s.miningIssued && f.supply == s.supply
    && f.stateRoot == RootOf(env.crypto, s)
  }

  /** The published fields are those of the active chain. */
  ghost predicate Faithful(env: Env, f: Front) {
    && LedgerOf(env, f.active).Some?
    && (forall s {:trigger Shows(env, f, s)} :: LedgerOf(env, f.active) == Some(s) ==> Shows(env, f, s))
    && f.confirmedTx == ConfirmedIds(f.active)
  }

  /** The state a front publishes, if it is that of its active chain. */
  ghost function StateShown(env: Env, f: Front): Option<State> {
    if Faithful(env, f) then LedgerOf(env, f.active) else None
  }

  /** Opening this image succeeds: the records still owed can be written. */
  ghost predicate Openable(env: Env, codec: Journal.Codec, d: Journal.Disk)
    requires DiskOk(env, codec, d)
  {
    && (d == Journal.EMPTY ==> |codec.enc(Genesis(env.crypto))| <= Journal.MAX_RECORD)
    && var ch := NodeOf(env, codec, d).active; OwedFit(env, ch, FirstUncovered(ch, d.checkpoints))
  }

  /** What publishing a chain with a state leaves behind; the two maps are copies. */
  ghost function FrontOf(env: Env, ch: seq<Block>, s: State, balances: map<Text, u64>, nonces: map<Text, u64>): Front
    requires |ch| > 0
  {
    Front(ch[|ch| - 1].hash, ch, balances, nonces, s.genesisSupply, s.miningIssued, s.supply, ConfirmedIds(ch), RootOf(env.crypto, s))
  }

  lemma FrontShows(env: Env, f: Front, ch: seq<Block>, s: State)
    requires |ch| > 0 && f == FrontOf(env, ch, s, f.balances, f.nonces) && View(f.balances, f.nonces) == s.accounts
    requires LedgerOf(env, ch) == Some(s)
    ensures StateShown(env, f) == Some(s)
  {
    assert Shows(env, f, s);
  }

  /** The abstract node of a front whose active chain is the stored chain of its tip. */
  ghost function NodeShown(env: Env, t: Blocks, f: Front): Option<Node>
    requires TreeOk(env.crypto, t)
  {
    if f.tip in t && f.active == ChainOf(env.crypto, t, f.tip) && StateShown(env, f).Some? then Some(Node(t, f.active)) else None
  }

  /** The abstract node of memory: tree, snapshots and front in order. */
  ghost function Held(env: Env, t: Blocks, cache: map<Text, State>, f: Front): Option<Node> {
    if TreeOk(env.crypto, t) && CacheOk(env, t, cache) then NodeShown(env, t, f) else None
  }

  lemma HeldSurvives(env: Env, t: Blocks, u: Blocks, cache: map<Text, State>, f: Front)
    requires TreeOk(env.crypto, u) && Extends(t, u) && Held(env, t, cache, f).Some?
    ensures Held(env, u, cache, f).Some?
  {
    CacheSurvives(env, t, u, cache);
    ChainMonotone(env.crypto, t, u, f.tip);
  }

  /** The journal is good at every record boundary, and a block map is what its image decodes to. */
  ghost predicate Journaled(env: Env, codec: Journal.Codec, log: seq<Journal.Record>, d: Journal.Disk, t: Blocks) {
    Journal.Lawful(codec) && LogOk(env, codec, log) && GrownDisk(env, codec, d) && t == Stored(codec, d)
  }

  /** What reading chains and states needs. */
  ghost predicate Readable(env: Env, t: Blocks, cps: map<Text, Bytes>) {
    ValidEnv(env) && TreeOk(env.crypto, t) && AllValid(env, t) && CheckpointsOk(env, t, cps)
  }

  /** The chain a block extends, if it passed every test made before storing. */
  ghost function Passed(env: Env, t: Blocks, now: int, b: Block): Option<seq<Block>> {
    if TreeOk(env.crypto, t) && Screen(env, t, now, b) == Fork then Some(PrefixOf(env, t, b)) else None
  }

  /** The chain a new block extends, if the whole is a valid chain. */
  ghost function Storable(env: Env, t: Blocks, b: Block): Option<seq<Block>> {
    if TreeOk(env.crypto, t) && b.hash !in t && b.header.previousHash in t && ValidChain(env, PrefixOf(env, t, b) + [b])
    then Some(PrefixOf(env, t, b)) else None
  }

  lemma PassedStorable(env: Env, t: Blocks, now: int, b: Block)
    requires Passed(env, t, now, b).Some?
    ensures Storable(env, t, b) == Passed(env, t, now, b)
  {
  }

  /** What storing a block does to blocks that can be read. */
  lemma StorableKeeps(env: Env, t: Blocks, cps: map<Text, Bytes>, b: Block)
    requires Readable(env, t, cps) && Storable(env, t, b).Some?
    ensures Readable(env, t[b.hash := b], cps) && Extends(t, t[b.hash := b])
    ensures b.header.previousHash in t && b.hash != []
    ensures var u := t[b.hash := b];
            && Some(ChainOf(env.crypto, u, b.header.previousHash)) == Storable(env, t, b)
            && ChainOf(env.crypto, u, b.hash) == ChainOf(env.crypto, u, b.header.previousHash) + [b]
  {
    AcceptedShape(env, b, PrefixOf(env, t, b));
    StoreKeepsValid(env, t, b);
    CheckpointsSurvive(env, t, t[b.hash := b], cps);
    ChainMonotone(env.crypto, t, t[b.hash := b], b.header.previousHash);
  }

  /** Everything a chain object and its store hold, as one value. */
  datatype Memory = Memory(
    blocks: Blocks, cache: map<Text, State>, front: Front, log: seq<Journal.Record>, image: Journal.Disk)

  ghost predicate MemoryOk(env: Env, codec: Journal.Codec, m: Memory) {
    && ValidEnv(env) && TreeOk(env.crypto, m.blocks) && AllValid(env, m.blocks)
    && Journaled(env, codec, m.log, m.image, m.blocks) && CheckpointsOk(env, m.blocks, m.image.checkpoints)
    && CacheOk(env, m.blocks, m.cache)
    && NodeShown(env, m.blocks, m.front).Some? && m.front.tip == TipOf(env, m.image.tip)
  }

  /** Within a stored chain every block follows from the state before it. */
  lemma StoredStep(env: Env, t: Blocks, h: Text, i: nat)
    requires TreeOk(env.crypto, t) && AllValid(env, t) && h in t && 0 < i <= t[h].header.index
    ensures |ChainOf(env.crypto, t, h)| == t[h].header.index + 1
    ensures var ch := ChainOf(env.crypto, t, h);
            && ch[i].hash in t && ChainOf(env.crypto, t, ch[i].hash) == ch[..i + 1]
            && LedgerOf(env, ch[..i]).Some? && LedgerOf(env, ch[..i + 1]).Some?
            && LedgerOf(env, ch[..i + 1]) == Incremental(env, ch[i], ch[..i], LedgerOf(env, ch[..i]).value)
  {
    ChainPrefix(env.crypto, t, h, i);
    var ch := ChainOf(env.crypto, t, h);
    assert Sound(env, t, ch[i].hash);
    assert ch[..i + 1][..i] == ch[..i];
    LedgerStep(env, ch[..i + 1]);
  }

  // ---- reorganisations lose nothing ----------------------------------------

  lemma {:induction false} CommonPart(t: Blocks, a: seq<Block>, b: seq<Block>)
    requires forall x :: x in a || x in b ==> x.hash in t && t[x.hash] == x
    ensures var n := CommonLength(a, b); a[..n] == b[..n]
    decreases |a|
  {
    if a != [] && b != [] && a[0].hash == b[0].hash {
      CommonPart(t, a[1..], b[1..]);
      var n := CommonLength(a[1..], b[1..]);
      HeadTake(a, n);
      HeadTake(b, n);
    }
  }

  lemma {:induction false} ResubmittableSplit(ch: seq<Block>, n: nat)
    requires n <= |ch|
    ensures ResubmittableOf(ch) == ResubmittableOf(ch[..n]) + ResubmittableOf(ch[n..])
    decreases |ch|
  {
    if n == |ch| {
      assert ch[..n] == ch && ch[n..] == [];
    } else {
      var init := ch[..|ch| - 1];
      ResubmittableSplit(init, n);
      assert init[..n] == ch[..n] && init[n..] == ch[n..][..|ch[n..]| - 1];
      Associative(ResubmittableOf(ch[..n]), ResubmittableOf(init[n..]), ResubmittableIn(ch[|ch| - 1].txs));
    }
  }

  lemma StoredElements(c: Crypto, t: Blocks, h: Text)
    requires TreeOk(c, t) && h in t
    ensures forall x :: x in ChainOf(c, t, h) ==> x.hash in t && t[x.hash] == x
  {
    forall x | x in ChainOf(c, t, h)
      ensures x.hash in t && t[x.hash] == x
    {
      var i: nat :| i < |ChainOf(c, t, h)| && ChainOf(c, t, h)[i] == x;
      ChainShape(c, t, h);
      ChainPrefix(c, t, h, i);
    }
  }

  /**
   * A reorganisation between two stored chains hands back exactly the resubmittable transactions of
   * the losing chain that are not on the part both chains share.
   */
  lemma ReorgLosesNothing(c: Crypto, t: Blocks, losing: Text, parent: Text)
    requires TreeOk(c, t) && losing in t && parent in t
    ensures var (branch, prefix) := (ChainOf(c, t, losing), ChainOf(c, t, parent));
            var n := CommonLength(branch, prefix);
            && n > 0 && branch[..n] == prefix[..n]
            && ResubmittableOf(branch) == ResubmittableOf(prefix[..n]) + LosingTransactions(branch, prefix)
  {
    var a, b := ChainOf(c, t, losing), ChainOf(c, t, parent);
    ChainShape(c, t, losing);
    ChainShape(c, t, parent);
    StoredElements(c, t, losing);
    StoredElements(c, t, parent);
    CommonPart(t, a, b);
    ResubmittableSplit(a, CommonLength(a, b));
  }

  // ---- small ledgers always open -------------------------------------------

  lemma StepKeepsAccounts(rule: Rule, env: Env, reward: u64, a: Accounts, tx: Tx)
    requires Step(rule, env, reward, a, tx).Some?
    ensures a.Keys <= Step(rule, env, reward, a, tx).value.Keys
  {
  }

  lemma {:induction false} RunKeepsAccounts(rule: Rule, env: Env, reward: u64, a: Accounts, txs: seq<Tx>)
    requires Run(rule, env, reward, a, txs).Some?
    ensures a.Keys <= Run(rule, env, reward, a, txs).value.Keys
    decreases |txs|
  {
    if txs != [] {
      RunKeepsAccounts(rule, env, reward, a, txs[..|txs| - 1]);
      StepKeepsAccounts(rule, env, reward, Run(rule, env, reward, a, txs[..|txs| - 1]).value, txs[|txs| - 1]);
    }
  }

  lemma BlockKeepsAccounts(env: Env, s: State, b: Block, reward: u64)
    requires ApplyBlock(env, s, b, reward).Some?
    ensures s.accounts.Keys <= ApplyBlock(env, s, b, reward).value.accounts.Keys
  {
    RunKeepsAccounts(RuleOf(env), env, reward, s.accounts, b.txs);
  }

  lemma {:induction false} AccountsGrow(env: Env, ch: seq<Block>, i: nat)
    requires LedgerOf(env, ch).Some? && i <= |ch|
    ensures LedgerOf(env, ch[..i]).Some?
    ensures LedgerOf(env, ch[..i]).value.accounts.Keys <= LedgerOf(env, ch).value.accounts.Keys
    decreases |ch|
  {
    if i == |ch| {
      WholeSlice(ch);
    } else if |ch| > 1 {
      var prefix := ch[..|ch| - 1];
      LedgerStep(env, ch);
      AccountsGrow(env, prefix, i);
      assert prefix[..i] == ch[..i];
      var s := LedgerOf(env, prefix).value;
      Accepted(env, prefix, ch[|ch| - 1], s);
      BlockKeepsAccounts(env, s, ch[|ch| - 1], SnapshotReward(env, s).value);
    }
  }

  lemma SubsetSize<T>(a: set<T>, b: set<T>)
    requires a <= b
    ensures |a| <= |b|
  {
    assert b == a + (b - a);
  }

  /** Accounts never vanish, so a chain whose ledger fits one checkpoint record can always be reopened. */
  lemma SmallLedgersOpen(env: Env, codec: Journal.Codec, d: Journal.Disk)
    requires ValidEnv(env) && DiskOk(env, codec, d) && d != Journal.EMPTY
    requires LedgerOf(env, NodeOf(env, codec, d).active).Some?
    requires |LedgerOf(env, NodeOf(env, codec, d).active).value.accounts| <= MAX_CHECKPOINT_ACCOUNTS
    ensures Openable(env, codec, d)
  {
    var ch := NodeOf(env, codec, d).active;
    forall i | FirstUncovered(ch, d.checkpoints) <= i < |ch|
      ensures OwedFits(env, ch, i)
    {
      AccountsGrow(env, ch, i + 1);
      SubsetSize(LedgerOf(env, ch[..i + 1]).value.accounts.Keys, LedgerOf(env, ch).value.accounts.Keys);
    }
  }
}
