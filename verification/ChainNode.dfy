/**
 * The chain object: block tree, active chain, cached state snapshots and checkpoints, and the
 * journal underneath. Every method is proved against the abstract node of module Tree, which
 * knows neither snapshots nor checkpoints. (internal/chain/chain.go)
 */
module ChainNode {
  import opened Base
  import opened Protocol
  import opened Retarget
  import opened Rules
  import opened Ledger
  import opened LedgerOps
  import Frozen
  import opened Conservation
  import opened Equivalence
  import opened Checkpoint
  import opened Tree
  import opened Wallets
  import opened Persist
  import opened ChainMemory
  import Journal

  // ---- the chain -----------------------------------------------------------

  class Chain {
    const env: Env
    const store: Journal.Store
    var blocks: Blocks
    var activeTip: Text
    var active: seq<Block>
    var balances: map<Text, u64>
    var nonces: map<Text, u64>
    var genesisSupply: u64
    var miningIssued: u64
    var supply: u64
    var confirmedTx: set<Text>
    var stateSnapshots: map<Text, State>
    var stateRoot: Text
    var reorgCandidates: seq<Tx>

    ghost function Lim(): Limits {
      Limits(b => |store.codec.enc(b)| <= Journal.MAX_RECORD, s => FitsRecord(s))
    }

    /** The journal below is sound and its image is what memory holds. */
    ghost predicate Durable()
      reads this`blocks, store
    {
      && store.Valid()
      && (forall d {:trigger Journaled(env, store.codec, store.log, d, blocks)} ::
            d == store.Image() ==> Journaled(env, store.codec, store.log, d, blocks))
    }

    /** The stored blocks, if journal and memory agree and can be read. */
    ghost function Ready(): Option<Blocks>
      reads this`blocks, store
    {
      if Readable(env, blocks, store.checkpoints) && Durable() then Some(blocks) else None
    }

    ghost function Published(): Front
      reads this`active, this`activeTip, this`balances, this`nonces, this`genesisSupply, this`miningIssued, this`supply
      reads this`stateRoot, this`confirmedTx
    { Front(activeTip, active, balances, nonces, genesisSupply, miningIssued, supply, confirmedTx, stateRoot) }

    /** The abstract node, if every part of the object is in order; for the methods that take it apart. */
    ghost function Whole(): Option<Node>
      reads this, store
    {
      if Ready().Some? && activeTip == TipOf(env, store.tip) then Held(env, blocks, stateSnapshots, Published()) else None
    }

    ghost function Contents(): Memory
      reads this, store
    { Memory(blocks, stateSnapshots, Published(), store.log, store.Image()) }

    /** What the object holds is coherent; quantified, so that only `Open` and `Close` look inside. */
    ghost predicate Valid()
      reads this, store
    {
      && store.Valid()
      && (forall m {:trigger MemoryOk(env, store.codec, m)} :: m == Contents() ==> MemoryOk(env, store.codec, m))
    }

    /** The abstract node this object stands for; `None` unless the invariant holds. */
    ghost function Abs(): Option<Node>
      reads this, store
    {
      if Valid() then Some(Node(blocks, active)) else None
    }

    lemma Open()
      requires Abs().Some?
      ensures Whole() == Abs()
    {
      assert MemoryOk(env, store.codec, Contents());
    }

    lemma Close()
      requires Whole().Some?
      ensures Abs() == Whole()
    {
      ImageIsJournaled();
      assert MemoryOk(env, store.codec, Contents());
    }

    /** What callers read off the published fields. */
    lemma Reads()
      requires Abs().Some?
      ensures ValidEnv(env) && Abs() == Some(Node(blocks, active)) && ValidNode(env, Node(blocks, active))
      ensures LedgerOf(env, active).Some?
      ensures var s := LedgerOf(env, active).value;
              View(balances, nonces) == s.accounts && miningIssued == s.miningIssued && supply == s.supply
      ensures confirmedTx == ConfirmedIds(active)
    {
      Open();
      ChainShape(env.crypto, blocks, activeTip);
      assert NodeOk(env.crypto, blocks, activeTip);
      assert Shows(env, Published(), LedgerOf(env, active).value);
    }

    /** And its root, tip and genesis supply. */
    lemma ReadsRoot()
      requires Abs().Some?
      ensures LedgerOf(env, active).Some? && |active| > 0 && activeTip == active[|active| - 1].hash
      ensures var s := LedgerOf(env, active).value; genesisSupply == s.genesisSupply && stateRoot == RootOf(env.crypto, s)
    {
      Open();
      ChainShape(env.crypto, blocks, activeTip);
      assert NodeOk(env.crypto, blocks, activeTip);
      assert Shows(env, Published(), LedgerOf(env, active).value);
    }

    /** The journal alone stands for the node. */
    lemma Durability()
      requires Abs().Some?
      ensures LogOk(env, store.codec, store.log) && Journal.Fold(store.codec, Journal.EMPTY, store.log) == Some(store.Image())
      ensures store.Image() != Journal.EMPTY && DiskOk(env, store.codec, store.Image())
      ensures Abs() == Some(NodeOf(env, store.codec, store.Image())) && store.tips == Journal.TipsIn(store.log)
    {
      Open();
      ImageIsJournaled();
    }

    constructor (env: Env, store: Journal.Store)
      ensures this.env == env && this.store == store && blocks == map[] && stateSnapshots == map[]
    {
      this.env, this.store := env, store;
      blocks, balances, nonces, stateSnapshots := map[], map[], map[], map[];
      activeTip, active, stateRoot, reorgCandidates := [], [], [], [];
      genesisSupply, miningIssued, supply, confirmedTx := 0, 0, 0, {};
    }

    // ---- chains out of the block map ---------------------------------------

    /** `buildChain`. */
    method BuildChain(tip: Text) returns (ch: Option<seq<Block>>)
      requires TreeOk(env.crypto, blocks)
      ensures ch == if tip in blocks then Some(ChainOf(env.crypto, blocks, tip)) else None
    {
      if tip !in blocks { return None; }
      var cur := blocks[tip];
      assert NodeOk(env.crypto, blocks, tip);
      var rev := [cur];
      while cur.header.index != 0
        invariant cur.hash in blocks && blocks[cur.hash] == cur && cur.header.index >= 0
        invariant |rev| > 0 && rev[|rev| - 1] == cur
        invariant ChainOf(env.crypto, blocks, tip) == ChainOf(env.crypto, blocks, cur.hash) + Reversed(rev[..|rev| - 1])
        decreases cur.header.index
      {
        assert NodeOk(env.crypto, blocks, cur.hash);
        var p := cur.header.previousHash;
        if p !in blocks { return None; }
        cur := blocks[p];
        assert NodeOk(env.crypto, blocks, p);
        ReversedSnoc(rev);
        rev := rev + [cur];
      }
      ReversedSnoc(rev);
      assert ChainOf(env.crypto, blocks, cur.hash) == [cur];
      var r := Reverse(rev);
      ch := Some(r);
    }

    // ---- states out of snapshots and checkpoints ---------------------------

    /** The backward search for a checkpointed block. */
    method NewestCheckpoint(ch: seq<Block>) returns (found: bool, start: nat)
      ensures start == FirstUncovered(ch, store.checkpoints)
      ensures if found then 1 <= start <= |ch| && ch[start - 1].hash in store.checkpoints else start == 1
    {
      var i := |ch|;
      assert ch[..i] == ch;
      while i > 0
        invariant 0 <= i <= |ch|
        invariant FirstUncovered(ch, store.checkpoints) == FirstUncovered(ch[..i], store.checkpoints)
      {
        assert ch[..i][..i - 1] == ch[..i - 1];
        i := i - 1;
        if ch[i].hash in store.checkpoints { return true, i + 1; }
      }
      found, start := false, 1;
    }

    /** The newest checkpointed state of a stored chain, or the genesis state. */
    method NearestState(ch: seq<Block>, ghost h: Text) returns (base: State, start: nat)
      requires Readable(env, blocks, store.checkpoints) && h in blocks && ch == ChainOf(env.crypto, blocks, h)
      ensures start == FirstUncovered(ch, store.checkpoints)
      ensures 1 <= start <= |ch| && LedgerOf(env, ch[..start]) == Some(base)
    {
      ChainShape(env.crypto, blocks, h);
      var found;
      found, start := NewestCheckpoint(ch);
      if found {
        base := CheckpointState(ch, start, h);
      } else {
        base := FirstState(ch);
      }
    }

    method CheckpointState(ch: seq<Block>, start: nat, ghost h: Text) returns (base: State)
      requires Readable(env, blocks, store.checkpoints) && h in blocks && ch == ChainOf(env.crypto, blocks, h)
      requires 1 <= start <= |ch| && ch[start - 1].hash in store.checkpoints
      ensures LedgerOf(env, ch[..start]) == Some(base)
    {
      StartsStored(env.crypto, blocks, h, start);
      base := LoadCheckpoint(ch[start - 1].hash);
    }

    method FirstState(ch: seq<Block>) returns (base: State)
      requires ValidEnv(env) && |ch| > 0
      ensures LedgerOf(env, ch[..1]) == Some(base)
    {
      base := Frozen.Genesis(env);
      assert |ch[..1]| == 1;
    }

    method LoadCheckpoint(h: Text) returns (s: State)
      requires Readable(env, blocks, store.checkpoints) && h in store.checkpoints
      ensures h in blocks && LedgerOf(env, ChainOf(env.crypto, blocks, h)) == Some(s)
    {
      assert CheckpointOk(env, blocks, store.checkpoints, h);
      CheckpointCapacity(env, ChainOf(env.crypto, blocks, h));
      var decoded := Frozen.Read(env.crypto, store.checkpoints[h]);
      s := decoded.value;
    }

    /** One replayed block of a stored chain: it was validated when it was stored, so it passes again. */
    method Advance(ch: seq<Block>, i: nat, base: State, ghost h: Text) returns (next: State)
      requires Readable(env, blocks, store.checkpoints) && h in blocks && ch == ChainOf(env.crypto, blocks, h)
      requires 0 < i < |ch| && LedgerOf(env, ch[..i]) == Some(base)
      ensures ch[i].hash in blocks && ChainOf(env.crypto, blocks, ch[i].hash) == ch[..i + 1]
      ensures LedgerOf(env, ch[..i + 1]) == Some(next)
    {
      ChainShape(env.crypto, blocks, h);
      StoredStep(env, blocks, h, i);
      var n := Frozen.Next(env, ch[i], ch[..i], base);
      next := n.value;
    }

    /** Caches a copy of a state under its block. */
    method Remember(h: Text, s: State)
      requires TreeOk(env.crypto, blocks) && CacheOk(env, blocks, stateSnapshots)
      requires h in blocks && LedgerOf(env, ChainOf(env.crypto, blocks, h)) == Some(s)
      modifies this`stateSnapshots
      ensures CacheOk(env, blocks, stateSnapshots)
    {
      CacheGrows(env, blocks, stateSnapshots, h, s);
      stateSnapshots := stateSnapshots[h := s];
    }

    /** `stateForParent`: cached, or rebuilt from the nearest checkpoint; it cannot fail on a stored chain. */
    method StateForParent(prefix: seq<Block>, ghost h: Text) returns (s: State)
      requires Readable(env, blocks, store.checkpoints) && CacheOk(env, blocks, stateSnapshots) && h in blocks && prefix == ChainOf(env.crypto, blocks, h)
      modifies this`stateSnapshots
      ensures CacheOk(env, blocks, stateSnapshots)
      ensures LedgerOf(env, prefix) == Some(s)
    {
      ChainShape(env.crypto, blocks, h);
      var parent := prefix[|prefix| - 1];
      assert NodeOk(env.crypto, blocks, h);
      if parent.hash in stateSnapshots {
        assert CachedOk(env, blocks, stateSnapshots, h);
        s := stateSnapshots[parent.hash];
      } else {
        s := Rebuild(prefix, h);
      }
    }

    /** Reconstructs a fork's state from the nearest checkpoint, caching every state on the way. */
    method Rebuild(prefix: seq<Block>, ghost h: Text) returns (s: State)
      requires Readable(env, blocks, store.checkpoints) && CacheOk(env, blocks, stateSnapshots) && h in blocks && prefix == ChainOf(env.crypto, blocks, h)
      modifies this`stateSnapshots
      ensures CacheOk(env, blocks, stateSnapshots)
      ensures LedgerOf(env, prefix) == Some(s)
    {
      var start;
      s, start := NearestState(prefix, h);
      for i := start to |prefix|
        invariant CacheOk(env, blocks, stateSnapshots) && LedgerOf(env, prefix[..i]) == Some(s)
      {
        s := Advance(prefix, i, s, h);
        Remember(prefix[i].hash, s);
      }
      assert prefix[..|prefix|] == prefix;
    }

    // ---- writing ------------------------------------------------------------

    lemma ImageIsJournaled()
      requires Durable()
      ensures Journaled(env, store.codec, store.log, store.Image(), blocks)
    {
    }

    /** The log grew by one record and its image is good again. */
    lemma LogGrew(log: seq<Journal.Record>, before: Journal.Disk)
      requires Journal.Lawful(store.codec) && LogOk(env, store.codec, log)
      requires store.Valid() && GrownDisk(env, store.codec, store.Image())
      requires |store.log| == |log| + 1 && store.log[..|log|] == log
      requires Journal.Fold(store.codec, Journal.EMPTY, log) == Some(before)
      requires Extends(Stored(store.codec, before), Stored(store.codec, store.Image()))
      ensures Journaled(env, store.codec, store.log, store.Image(), Stored(store.codec, store.Image()))
    {
      LogExtends(env, store.codec, log, store.log, before, store.Image());
    }

    lemma ReadyAgain()
      requires store.Valid() && Readable(env, blocks, store.checkpoints) && Journaled(env, store.codec, store.log, store.Image(), blocks)
      ensures Ready() == Some(blocks)
    {
    }

    /** The journal half of storing a block. */
    method SaveValid(b: Block) returns (ok: bool)
      requires Journal.Normal(b)
      requires Ready().Some? && Storable(env, blocks, b).Some?
      modifies store`file, store`log, store`blocks
      ensures ok == (|store.codec.enc(b)| <= Journal.MAX_RECORD) && store.Valid()
      ensures store.log == old(store.log) + (if ok then [Journal.Record(1, store.codec.enc(b))] else [])
      ensures Journaled(env, store.codec, store.log, store.Image(), if ok then blocks[b.hash := b] else blocks)
    {
      StorableKeeps(env, blocks, store.checkpoints, b);
      ghost var log := store.log;
      ImageIsJournaled();
      ok := store.SaveBlock(b);
      if !ok { return; }
      BlockRecordKeeps(env, store.codec, old(store.Image()), b);
      StoredWithBlock(store.codec, old(store.Image()), b);
      LogGrew(log, old(store.Image()));
    }

    /** Persists a validated block before it becomes eligible as a tip. */
    method StoreBlock(b: Block, ghost prefix: seq<Block>) returns (ok: bool)
      requires Journal.Normal(b) && Ready().Some? && Storable(env, blocks, b) == Some(prefix)
      modifies this`blocks, store`file, store`log, store`blocks
      ensures Ready().Some?
      ensures ok == (|store.codec.enc(b)| <= Journal.MAX_RECORD)
      ensures blocks == if ok then old(blocks)[b.hash := b] else old(blocks)
      ensures Extends(old(blocks), blocks) && (ok ==> Placed(b) == Some(prefix))
      ensures store.log == old(store.log) + (if ok then [Journal.Record(1, store.codec.enc(b))] else [])
    {
      StorableKeeps(env, blocks, store.checkpoints, b);
      ok := SaveValid(b);
      if ok { blocks := blocks[b.hash := b]; }
      ReadyAgain();
    }

    method PutCheckpoint(h: Text, s: State) returns (ok: bool)
      requires Ready().Some? && h in blocks && LedgerOf(env, ChainOf(env.crypto, blocks, h)) == Some(s)
      modifies store`file, store`log, store`checkpoints
      ensures Ready().Some?
      ensures ok == FitsRecord(s)
      ensures store.log == old(store.log) + (if ok then [Journal.Record(3, h + Encode(env.crypto, s))] else [])
    {
      assert NodeOk(env.crypto, blocks, h);
      ghost var log := store.log;
      ImageIsJournaled();
      var payload := Payload(h, s);
      ok := store.SaveStateCheckpoint(h, payload);
      if !ok { return; }
      CheckpointRecordKeeps(env, store.codec, old(store.Image()), h, s);
      LogGrew(log, old(store.Image()));
      ReadyAgain();
    }

    /** `Encode`; its size is fixed by the number of accounts. */
    method Payload(h: Text, s: State) returns (payload: Bytes)
      requires Readable(env, blocks, store.checkpoints) && h in blocks && LedgerOf(env, ChainOf(env.crypto, blocks, h)) == Some(s)
      ensures payload == Encode(env.crypto, s) && payload != []
      ensures |payload| <= Journal.MAX_RECORD - 64 <==> FitsRecord(s)
    {
      CheckpointCapacity(env, ChainOf(env.crypto, blocks, h));
      payload := Frozen.Write(env.crypto, s);
    }

    method MoveTip(h: Text)
      requires Ready().Some? && h in blocks
      modifies store`file, store`log, store`tip, store`tips
      ensures Ready().Some? && store.tip == h && store.tips == old(store.tips) + [h]
      ensures store.log == old(store.log) + [Journal.Record(2, h)]
    {
      assert NodeOk(env.crypto, blocks, h);
      ghost var log := store.log;
      ImageIsJournaled();
      var ok := store.SetTip(h);
      TipRecordKeeps(env, store.codec, old(store.Image()), h);
      LogGrew(log, old(store.Image()));
    }

    /** Rebuilds the published fields. */
    method Publish(ch: seq<Block>, shown: State, s: State)
      requires |ch| > 0 && LedgerOf(env, ch) == Some(shown) == Some(s)
      modifies this`active, this`activeTip, this`stateRoot, this`balances, this`nonces
      modifies this`genesisSupply, this`miningIssued, this`supply, this`confirmedTx
      ensures activeTip == ch[|ch| - 1].hash && active == ch && StateShown(env, Published()) == Some(s)
    {
      var f := MakeFront(env, ch, shown, s);
      activeTip, active, balances, nonces := f.tip, f.active, f.balances, f.nonces;
      genesisSupply, miningIssued, supply := f.genesisSupply, f.miningIssued, f.supply;
      confirmedTx, stateRoot := f.confirmedTx, f.stateRoot;
      assert Published() == f;
    }

    // ---- Accept -------------------------------------------------------------

    /** `validateV3IngressTimestamp`. */
    method CheckIngress(now: int, b: Block, prefix: seq<Block>) returns (ok: bool)
      requires |prefix| > 0
      ensures ok == IngressOk(env, now, b, prefix)
    {
      if env.version < 3 { return true; }
      ok := CheckTimestamp(3, b.header.timestamp, prefix);
      ok := ok && b.header.timestamp <= now + V3_FUTURE_BOUND;
    }

    /** Everything `Accept` tests before it stores: the verdict is that of full validation. */
    method Examine(now: int, b: Block) returns (reason: Reason, prefix: seq<Block>)
      requires Readable(env, blocks, store.checkpoints) && CacheOk(env, blocks, stateSnapshots)
      modifies this`stateSnapshots
      ensures CacheOk(env, blocks, stateSnapshots)
      ensures reason == Screen(env, blocks, now, b)
      ensures reason == Fork ==> b.header.previousHash in blocks && prefix == PrefixOf(env, blocks, b)
    {
      prefix := [];
      if b.hash in blocks { return Duplicate, []; }
      if b.header.index == 0 { return GenesisExists, []; }
      var past := BuildChain(b.header.previousHash);
      if past.None? { return UnknownAncestor, []; }
      prefix := past.value;
      ChainShape(env.crypto, blocks, b.header.previousHash);
      var ok := CheckIngress(now, b, prefix);
      if !ok { return InvalidIngressTime, []; }
      ok := ValidateOnSnapshot(b, prefix);
      reason := if ok then Fork else Invalid;
    }

    method ValidateOnSnapshot(b: Block, prefix: seq<Block>) returns (ok: bool)
      requires Readable(env, blocks, store.checkpoints) && CacheOk(env, blocks, stateSnapshots)
      requires b.header.previousHash in blocks && prefix == ChainOf(env.crypto, blocks, b.header.previousHash) && |prefix| > 0
      modifies this`stateSnapshots
      ensures CacheOk(env, blocks, stateSnapshots)
      ensures ok == ValidChain(env, prefix + [b])
    {
      var parent := StateForParent(prefix, b.header.previousHash);
      StoredChainIsValid(env, blocks, b.header.previousHash);
      IncrementalIsFullValidation(env, prefix, b);
      ValidStep(env, prefix, b);
      var next := Frozen.Next(env, b, prefix, parent);
      ok := next.Some?;
    }

    /** The longest common beginning, by hash. */
    method FindCommon(prefix: seq<Block>) returns (n: nat)
      ensures n == CommonLength(active, prefix)
    {
      n := 0;
      assert active[0..] == active && prefix[0..] == prefix;
      while n < |active| && n < |prefix| && active[n].hash == prefix[n].hash
        invariant n <= |active| && n <= |prefix|
        invariant CommonLength(active, prefix) == n + CommonLength(active[n..], prefix[n..])
      {
        assert active[n..][1..] == active[n + 1..] && prefix[n..][1..] == prefix[n + 1..];
        n := n + 1;
      }
    }

    /** Collects the losing branch's V2 transactions for resubmission. */
    method CollectReorg(prefix: seq<Block>)
      modifies this`reorgCandidates
      ensures reorgCandidates == LosingTransactions(active, prefix)
    {
      var common := FindCommon(prefix);
      reorgCandidates := [];
      if common == 0 { return; }
      for i := common to |active|
        invariant reorgCandidates == ResubmittableOf(active[common..i])
      {
        SliceGrows(active, common, i);
        var txs := FilterResubmittable(active[i].txs);
        reorgCandidates := reorgCandidates + txs;
      }
      WholeTail(active, common);
    }

    /** Writes the checkpoint a block owes. */
    method WriteOwed(b: Block, s: State) returns (ok: bool)
      requires Ready().Some? && b.hash in blocks
      requires LedgerOf(env, ChainOf(env.crypto, blocks, b.hash)) == Some(s)
      modifies store`file, store`log, store`checkpoints
      ensures Ready().Some?
      ensures store.log == old(store.log) + (if ok then OwedRecord(env.crypto, b, s) else [])
      ensures ok == (CheckpointDue(b) ==> FitsRecord(s))
    {
      ok := true;
      if CheckpointDue(b) { ok := PutCheckpoint(b.hash, s); }
    }

    /** The durable half of adopting a tip: the checkpoint it owes, then the tip record. */
    method PersistTip(b: Block, s: State) returns (ok: bool)
      requires Ready().Some? && b.hash in blocks
      requires LedgerOf(env, ChainOf(env.crypto, blocks, b.hash)) == Some(s)
      modifies store`file, store`log, store`checkpoints, store`tip, store`tips
      ensures Ready().Some?
      ensures ok == (CheckpointDue(b) ==> FitsRecord(s))
      ensures store.tip == if ok then b.hash else old(store.tip)
      ensures store.tips == if ok then old(store.tips) + [b.hash] else old(store.tips)
      ensures store.log == old(store.log) + (if ok then OwedRecord(env.crypto, b, s) + [Journal.Record(2, b.hash)] else [])
    {
      ok := WriteOwed(b, s);
      if ok {
        MoveTip(b.hash);
        Associative(old(store.log), OwedRecord(env.crypto, b, s), [Journal.Record(2, b.hash)]);
      }
    }

    /** The half in memory: reorganisation candidates, cache and published fields. */
    method Switch(b: Block, prefix: seq<Block>, s: State)
      requires TreeOk(env.crypto, blocks) && CacheOk(env, blocks, stateSnapshots)
      requires b.hash in blocks && ChainOf(env.crypto, blocks, b.hash) == prefix + [b] && LedgerOf(env, prefix + [b]) == Some(s)
      modifies this`stateSnapshots, this`reorgCandidates, this`active, this`activeTip, this`stateRoot, this`balances, this`nonces
      modifies this`genesisSupply, this`miningIssued, this`supply, this`confirmedTx
      ensures CacheOk(env, blocks, stateSnapshots)
      ensures active == prefix + [b] && activeTip == b.hash && StateShown(env, Published()) == Some(s)
      ensures env.version >= 2 ==> reorgCandidates == LosingTransactions(old(active), prefix)
    {
      if env.version >= 2 { CollectReorg(prefix); }
      Remember(b.hash, s);
      Publish(prefix + [b], s, s);
    }

    /** Derives the winning state again before anything durable moves. */
    method NextState(b: Block, prefix: seq<Block>) returns (s: State)
      requires Readable(env, blocks, store.checkpoints) && CacheOk(env, blocks, stateSnapshots) && |prefix| > 0
      requires b.hash in blocks && blocks[b.hash] == b && b.header.previousHash in blocks
      requires prefix == ChainOf(env.crypto, blocks, b.header.previousHash)
      requires ChainOf(env.crypto, blocks, b.hash) == prefix + [b]
      modifies this`stateSnapshots
      ensures CacheOk(env, blocks, stateSnapshots) && LedgerOf(env, prefix + [b]) == Some(s)
    {
      var parent := StateForParent(prefix, b.header.previousHash);
      assert Sound(env, blocks, b.hash);
      LastOf(prefix, b);
      LedgerStep(env, prefix + [b]);
      var next := Frozen.Next(env, b, prefix, parent);
      s := next.value;
    }

    /** The branch of `Accept` for a heavier chain: state, checkpoint, tip, reorganisation, publication. */
    method SwitchTo(b: Block, prefix: seq<Block>) returns (ok: bool)
      requires Ready().Some? && CacheOk(env, blocks, stateSnapshots) && |prefix| > 0
      requires b.hash in blocks && blocks[b.hash] == b && b.header.previousHash in blocks
      requires prefix == ChainOf(env.crypto, blocks, b.header.previousHash)
      requires ChainOf(env.crypto, blocks, b.hash) == prefix + [b]
      modifies this`stateSnapshots, this`reorgCandidates, this`active, this`activeTip, this`stateRoot, this`balances, this`nonces
      modifies this`genesisSupply, this`miningIssued, this`supply, this`confirmedTx
      modifies store`file, store`log, store`checkpoints, store`tip, store`tips
      ensures Ready().Some? && CacheOk(env, blocks, stateSnapshots)
      ensures ok == CheckpointFits(env, Lim(), prefix + [b])
      ensures ok ==> store.tip == activeTip == b.hash && active == prefix + [b] && StateShown(env, Published()).Some?
      ensures !ok ==> store.tip == old(store.tip) && Published() == old(Published())
      ensures ok && env.version >= 2 ==> reorgCandidates == LosingTransactions(old(active), prefix)
      ensures store.tips == if ok then old(store.tips) + [b.hash] else old(store.tips)
      ensures store.log == old(store.log) + (if ok then TipRecords(env, prefix + [b]) else [])
    {
      var s := NextState(b, prefix);
      ok := PersistTip(b, s);
      if ok { Switch(b, prefix, s); }
    }

    /** The same with the invariant taken apart and put together again. */
    method SwitchOver(b: Block, prefix: seq<Block>) returns (ok: bool)
      requires Abs().Some? && Placed(b) == Some(prefix) && blocks[b.hash] == b
      modifies this`stateSnapshots, this`reorgCandidates, this`active, this`activeTip, this`stateRoot, this`balances, this`nonces
      modifies this`genesisSupply, this`miningIssued, this`supply, this`confirmedTx
      modifies store`file, store`log, store`checkpoints, store`tip, store`tips
      ensures ok == CheckpointFits(env, Lim(), prefix + [b])
      ensures Abs() == Some(Node(blocks, if ok then prefix + [b] else old(active)))
      ensures ok && env.version >= 2 ==> reorgCandidates == LosingTransactions(old(active), prefix)
      ensures store.tips == if ok then old(store.tips) + [b.hash] else old(store.tips)
      ensures store.log == old(store.log) + (if ok then TipRecords(env, prefix + [b]) else [])
    {
      Open();
      assert NodeOk(env.crypto, blocks, b.hash);
      ok := SwitchTo(b, prefix);
      Close();
    }

    /** Fork choice by work. */
    method Adopt(b: Block, prefix: seq<Block>, ghost before: Blocks) returns (reason: Reason)
      requires Abs().Some? && Placed(b) == Some(prefix) && blocks == before[b.hash := b]
      modifies this`stateSnapshots, this`reorgCandidates, this`active, this`activeTip, this`stateRoot, this`balances, this`nonces
      modifies this`genesisSupply, this`miningIssued, this`supply, this`confirmedTx
      modifies store`file, store`log, store`checkpoints, store`tip, store`tips
      ensures Abs().Some? && (reason, Abs().value) == Tree.Adopt(env, Lim(), Node(before, old(active)), b, prefix + [b])
      ensures reason == Fork || reason == StorageFailed || reason == Best
      ensures reason == Best && env.version >= 2 ==> |active| > 0 && reorgCandidates == LosingTransactions(old(active), active[..|active| - 1])
      ensures store.tips == if reason == Best then old(store.tips) + [b.hash] else old(store.tips)
      ensures store.log == old(store.log) + (if reason == Best then TipRecords(env, active) else [])
    {
      LastOf(prefix, b);
      var heavier := Outweighs(prefix + [b]);
      if !heavier { return Fork; }
      var ok := SwitchOver(b, prefix);
      reason := if ok then Best else StorageFailed;
    }

    /**
     * `Accept`: with snapshots, checkpoints and journal it decides and publishes exactly what the
     * abstract node does by full validation, and keeps every invariant. Callers hand it blocks that
     * were decoded or mined here, so no field of the other transaction version is set.
     */
    method Accept(now: int, b: Block) returns (accepted: bool, reason: Reason)
      requires Abs().Some? && Journal.Normal(b)
      modifies this, store
      ensures TreeOk(env.crypto, old(Abs()).value.blocks)
      ensures var (r, n) := Tree.Accept(env, Lim(), old(Abs()).value, now, b); reason == r && Abs() == Some(n)
      ensures accepted == (reason == Best || reason == Fork)
      ensures reason == Best && env.version >= 2 ==> |active| > 0 && reorgCandidates == LosingTransactions(old(active), active[..|active| - 1])
      ensures store.tips == if reason == Best then old(store.tips) + [b.hash] else old(store.tips)
      ensures store.log == old(store.log) + AcceptRecords(env, store.codec, b, b.hash !in old(blocks) && b.hash in blocks, reason, active)
    {
      ghost var n := Abs().value;
      var prefix;
      reason, prefix := ExamineNext(now, b);
      if reason != Fork {
        AcceptRefuses(env, Lim(), n, now, b);
        return false, reason;
      }
      reason := Insert(now, b, prefix);
      accepted := reason != StorageFailed;
    }

    /** The part of `Accept` behind a passed examination: store the block, then choose. */
    method Insert(ghost now: int, b: Block, prefix: seq<Block>) returns (reason: Reason)
      requires Journal.Normal(b) && Abs().Some? && Passed(env, blocks, now, b) == Some(prefix)
      modifies this, store
      ensures Abs().Some? && (reason, Abs().value) == Tree.Accept(env, Lim(), old(Abs()).value, now, b)
      ensures reason == Fork || reason == StorageFailed || reason == Best
      ensures reason == Best && env.version >= 2 ==> |active| > 0 && reorgCandidates == LosingTransactions(old(active), active[..|active| - 1])
      ensures store.tips == if reason == Best then old(store.tips) + [b.hash] else old(store.tips)
      ensures store.log == old(store.log) + AcceptRecords(env, store.codec, b, b.hash !in old(blocks) && b.hash in blocks, reason, active)
    {
      ghost var n := Abs().value;
      PassedStorable(env, blocks, now, b);
      var stored := StoreAndKeep(b, prefix);
      BlockFits(b);
      if !stored {
        AcceptCannotStore(env, Lim(), n, now, b);
        return StorageFailed;
      }
      reason := Adopt(b, prefix, n.blocks);
      AcceptAdopts(env, Lim(), n, now, b);
      StoredRecords(env, store.codec, b, reason, active, old(store.log));
    }

    /** Examining a block changes nothing but the cache. */
    method ExamineNext(now: int, b: Block) returns (reason: Reason, prefix: seq<Block>)
      requires Abs().Some?
      modifies this`stateSnapshots
      ensures Abs() == old(Abs())
      ensures TreeOk(env.crypto, blocks) && reason == Screen(env, blocks, now, b)
      ensures reason == Fork ==> Passed(env, blocks, now, b) == Some(prefix)
    {
      Open();
      reason, prefix := Examine(now, b);
      Close();
    }

    lemma BlockFits(b: Block)
      ensures Lim().blockFits(b) == (|store.codec.enc(b)| <= Journal.MAX_RECORD)
    {
    }

    method Outweighs(candidate: seq<Block>) returns (heavier: bool)
      ensures heavier == (ChainWork(candidate) > ChainWork(active))
    {
      var a := ComputeChainWork(candidate);
      var c := ComputeChainWork(active);
      heavier := a > c;
    }

    /** Storing a block disturbs neither the cached snapshots nor what is published. */
    method StoreAndKeep(b: Block, ghost prefix: seq<Block>) returns (ok: bool)
      requires Journal.Normal(b) && Abs().Some? && Storable(env, blocks, b) == Some(prefix)
      modifies this`blocks, store`file, store`log, store`blocks
      ensures Abs().Some?
      ensures ok == (|store.codec.enc(b)| <= Journal.MAX_RECORD)
      ensures blocks == if ok then old(blocks)[b.hash := b] else old(blocks)
      ensures ok ==> Placed(b) == Some(prefix)
      ensures store.log == old(store.log) + (if ok then [Journal.Record(1, store.codec.enc(b))] else [])
    {
      ghost var before, front, cache := blocks, Published(), stateSnapshots;
      Open();
      ok := StoreBlock(b, prefix);
      CloseGrown(before, cache, front);
    }

    lemma CloseGrown(before: Blocks, cache: map<Text, State>, front: Front)
      requires Ready().Some? && stateSnapshots == cache && Published() == front && front.tip == TipOf(env, store.tip)
      requires Extends(before, blocks) && Held(env, before, cache, front).Some?
      ensures Abs().Some?
    {
      HeldSurvives(env, before, blocks, cache, front);
      Close();
    }

    /** The chain a stored block extends. */
    ghost function Placed(b: Block): Option<seq<Block>>
      reads this`blocks
    {
      if TreeOk(env.crypto, blocks) && b.hash in blocks && b.header.previousHash in blocks then
        var prefix := ChainOf(env.crypto, blocks, b.header.previousHash);
        if |prefix| > 0 && ChainOf(env.crypto, blocks, b.hash) == prefix + [b] then Some(prefix) else None
      else None
    }

    // ---- opening ------------------------------------------------------------

    /** The journal can be reopened. */
    ghost predicate Recoverable()
      reads store
    {
      Journal.Lawful(store.codec) && store.Valid() && LogOk(env, store.codec, store.log)
    }

    /** Decodes every stored block. */
    method ReadBlocks() returns (ok: bool)
      modifies this`blocks
      ensures ok <==> Stored(store.codec, store.Image()).Keys == store.blocks.Keys
      ensures ok ==> blocks == Stored(store.codec, store.Image())
    {
      var todo := store.blocks.Keys;
      blocks := map[];
      while todo != {}
        invariant todo <= store.blocks.Keys
        invariant blocks.Keys == store.blocks.Keys - todo
        invariant forall h :: h in blocks ==> store.codec.dec(store.blocks[h]) == Some(blocks[h])
        decreases |todo|
      {
        var h :| h in todo;
        var b := store.codec.dec(store.blocks[h]);
        if b.None? {
          assert h !in Stored(store.codec, store.Image());
          return false;
        }
        blocks := blocks[h := b.value];
        todo := todo - {h};
      }
      assert blocks == Stored(store.codec, store.Image());
      ok := true;
    }

    /** A fresh journal gets the genesis block and its tip. */
    method SaveGenesis() returns (ok: bool)
      requires ValidEnv(env) && Recoverable() && store.Image() == Journal.EMPTY && blocks == map[]
      modifies this`blocks, store`file, store`log, store`blocks, store`tip, store`tips
      ensures ok == (|store.codec.enc(Genesis(env.crypto))| <= Journal.MAX_RECORD)
      ensures ok ==> blocks == InitialNode(env).blocks && store.tip == Genesis(env.crypto).hash
      ensures if ok then Ready().Some? else Recoverable()
      ensures store.tips == if ok then old(store.tips) + [Genesis(env.crypto).hash] else old(store.tips)
      ensures old(store.log) <= store.log
    {
      ok := StoreGenesis();
      if ok { MoveTip(Genesis(env.crypto).hash); }
    }

    method StoreGenesis() returns (ok: bool)
      requires ValidEnv(env) && Recoverable() && store.Image() == Journal.EMPTY && blocks == map[]
      modifies this`blocks, store`file, store`log, store`blocks
      ensures ok == (|store.codec.enc(Genesis(env.crypto))| <= Journal.MAX_RECORD)
      ensures ok ==> blocks == InitialNode(env).blocks
      ensures if ok then Ready().Some? else Recoverable()
      ensures old(store.log) <= store.log
    {
      var g := Genesis(env.crypto);
      Journal.GenesisIsNormal(env.crypto);
      ghost var log := store.log;
      ok := store.SaveBlock(g);
      if !ok { return; }
      GenesisRecordKeeps(env, store.codec);
      LogGrew(log, old(store.Image()));
      blocks := blocks[g.hash := g];
      assert Journaled(env, store.codec, store.log, store.Image(), blocks);
    }

    /** The blocks and tip of a journal that holds some. */
    lemma Adopted(d: Journal.Disk)
      requires ValidEnv(env) && Recoverable() && d == store.Image() && d.blocks != map[]
      requires blocks == Stored(store.codec, d)
      ensures Ready().Some? && TipOf(env, d.tip) in blocks
      ensures DiskOk(env, store.codec, d) && NodeOf(env, store.codec, d) == Node(blocks, ChainOf(env.crypto, blocks, TipOf(env, d.tip)))
    {
      LogEnd(env, store.codec, store.log);
      assert Journaled(env, store.codec, store.log, d, blocks);
    }

    /** `initializeIncrementalState`: from the nearest checkpoint to the tip, writing the checkpoints still owed. */
    method InitializeState(ch: seq<Block>, ghost h: Text) returns (ok: bool, current: State)
      requires StoredAs(ch, h).Some?
      modifies this`stateSnapshots, store`file, store`log, store`checkpoints
      ensures StoredAs(ch, h).Some? && old(store.log) <= store.log
      ensures ok == OwedFit(env, ch, FirstUncovered(ch, old(store.checkpoints)))
      ensures ok ==> CacheOk(env, blocks, stateSnapshots) && LedgerOf(env, ch) == Some(current)
      ensures ok ==> store.log == old(store.log) + OwedRecords(env, ch, FirstUncovered(ch, old(store.checkpoints)), |ch|)
    {
      var base, start := NearestState(ch, h);
      SeedCache(ch, start, base, h);
      ok, current := CatchUp(ch, start, base, h);
      if ok { RememberTip(ch, current, h); }
    }

    /** A cache that starts over, with the genesis state if that is where the replay starts. */
    method SeedCache(ch: seq<Block>, start: nat, base: State, ghost h: Text)
      requires StoredAs(ch, h).Some? && (start == 1 ==> LedgerOf(env, ch[..1]) == Some(base))
      modifies this`stateSnapshots
      ensures CacheOk(env, blocks, stateSnapshots)
    {
      stateSnapshots := map[];
      if start == 1 {
        ChainShape(env.crypto, blocks, h);
        ChainPrefix(env.crypto, blocks, h, 0);
        Remember(ch[0].hash, base);
      }
    }

    method RememberTip(ch: seq<Block>, current: State, ghost h: Text)
      requires StoredAs(ch, h).Some? && CacheOk(env, blocks, stateSnapshots) && LedgerOf(env, ch) == Some(current)
      modifies this`stateSnapshots
      ensures CacheOk(env, blocks, stateSnapshots)
    {
      ChainShape(env.crypto, blocks, h);
      assert NodeOk(env.crypto, blocks, h);
      Remember(ch[|ch| - 1].hash, current);
    }

    /** A chain that is stored under its last block's hash, in a journal in good order. */
    ghost function StoredAs(ch: seq<Block>, h: Text): Option<seq<Block>>
      reads this`blocks, store
    {
      if Ready().Some? && h in blocks && ch == ChainOf(env.crypto, blocks, h) then Some(ch) else None
    }

    method CatchUp(ch: seq<Block>, start: nat, base: State, ghost h: Text) returns (ok: bool, current: State)
      requires StoredAs(ch, h).Some?
      requires 1 <= start <= |ch| && LedgerOf(env, ch[..start]) == Some(base)
      modifies store`file, store`log, store`checkpoints
      ensures StoredAs(ch, h).Some? && old(store.log) <= store.log
      ensures ok == OwedFit(env, ch, start)
      ensures ok ==> LedgerOf(env, ch) == Some(current) && store.log == old(store.log) + OwedRecords(env, ch, start, |ch|)
    {
      current := base;
      ok := true;
      var i := start;
      while ok && i < |ch|
        invariant start <= i <= |ch| && StoredAs(ch, h).Some? && old(store.log) <= store.log
        invariant OwedSoFar(env, ch, start, i) == if ok then Some(Some(current)) else None
        invariant ok ==> store.log == old(store.log) + OwedRecords(env, ch, start, i)
      {
        ghost var records := OwedRecords(env, ch, start, i);
        ok, current := CatchUpOne(ch, i, current, h);
        OwedAdvance(env, ch, start, i, ok, current);
        Associative(old(store.log), records, OwedRecord(env.crypto, ch[i], current));
        i := i + 1;
      }
      OwedEnd(env, ch, start, i);
    }

    /** One missing state, and the checkpoint it owes. */
    method CatchUpOne(ch: seq<Block>, i: nat, base: State, ghost h: Text) returns (ok: bool, next: State)
      requires StoredAs(ch, h).Some?
      requires 0 < i < |ch| && LedgerOf(env, ch[..i]) == Some(base)
      modifies store`file, store`log, store`checkpoints
      ensures StoredAs(ch, h).Some?
      ensures store.log == old(store.log) + (if ok then OwedRecord(env.crypto, ch[i], next) else [])
      ensures ok == OwedFits(env, ch, i)
      ensures LedgerOf(env, ch[..i + 1]) == Some(next)
    {
      next := Advance(ch, i, base, h);
      OwedBy(env, ch, i, next);
      ok := WriteOwed(ch[i], next);
    }

    /** The second half of opening: validate the tip's chain, replay it, bring the snapshots up to date. */
    method OpenTip(tip: Text) returns (ok: bool)
      requires Ready().Some? && tip == TipOf(env, store.tip) && tip in blocks
      modifies this, store`file, store`log, store`checkpoints
      ensures Ready().Some? && blocks == old(blocks)
      ensures ok == OwedFit(env, ChainOf(env.crypto, blocks, tip), FirstUncovered(ChainOf(env.crypto, blocks, tip), old(store.checkpoints)))
      ensures ok ==> Abs() == Some(Node(blocks, ChainOf(env.crypto, blocks, tip)))
      ensures ok ==> store.log == old(store.log) + OwedRecords(env, active, FirstUncovered(active, old(store.checkpoints)), |active|)
      ensures old(store.log) <= store.log
    {
      ChainShape(env.crypto, blocks, tip);
      StoredChainIsValid(env, blocks, tip);
      var candidate := BuildChain(tip);
      var ch := candidate.value;
      ok := ValidateChain(env, ch);
      if !ok { return; }
      ValidChainHasLedger(env, ch);
      var replayed := Frozen.Replayed(env, ch);
      if replayed.None? { return false; }
      ok := PublishTip(ch, replayed.value, tip);
    }

    /** Snapshots up to the tip, then the published fields. */
    method PublishTip(ch: seq<Block>, replayed: State, tip: Text) returns (ok: bool)
      requires Ready().Some? && tip == TipOf(env, store.tip) && tip in blocks
      requires ch == ChainOf(env.crypto, blocks, tip) && |ch| > 0 && LedgerOf(env, ch) == Some(replayed)
      modifies this, store`file, store`log, store`checkpoints
      ensures Ready().Some? && blocks == old(blocks)
      ensures ok == OwedFit(env, ch, FirstUncovered(ch, old(store.checkpoints)))
      ensures ok ==> Abs() == Some(Node(blocks, ch))
      ensures ok ==> store.log == old(store.log) + OwedRecords(env, ch, FirstUncovered(ch, old(store.checkpoints)), |ch|)
      ensures old(store.log) <= store.log
    {
      var current;
      ok, current := InitializeState(ch, tip);
      if !ok { return; }
      ChainShape(env.crypto, blocks, tip);
      assert NodeOk(env.crypto, blocks, tip);
      Publish(ch, replayed, current);
      Close();
    }

    /**
     * `openWithProtocol`: the reopened chain is the node its journal stands for, and opening fails only
     * when a record that is still owed cannot be written.
     */
    method Load() returns (ok: bool)
      requires ValidEnv(env) && Recoverable() && blocks == map[]
      modifies this, store
      ensures Recoverable() && DiskOk(env, store.codec, old(store.Image()))
      ensures ok == Openable(env, store.codec, old(store.Image()))
      ensures ok ==> Abs() == Some(NodeOf(env, store.codec, old(store.Image())))
      ensures old(store.log) <= store.log
      ensures ok && old(store.Image()) != Journal.EMPTY ==>
                store.log == old(store.log) + OwedRecords(env, active, FirstUncovered(active, old(store.checkpoints)), |active|)
      ensures ok ==> store.tips == if old(store.Image()) == Journal.EMPTY then old(store.tips) + [Genesis(env.crypto).hash] else old(store.tips)
    {
      LogEnd(env, store.codec, store.log);
      var g := Genesis(env.crypto);
      ok := ReadBlocks();
      if !ok { return; }
      if blocks == map[] {
        ok := SaveGenesis();
        if !ok { return; }
        GenesisTree(env);
      } else {
        Adopted(store.Image());
      }
      if g.hash !in blocks { return false; }
      ok := MatchesGenesis(env.crypto, blocks[g.hash]);
      if !ok { return; }
      var tip := TipOf(env, store.tip);
      if tip !in blocks { return false; }
      ok := OpenTip(tip);
      ImageIsJournaled();
    }
  }

  lemma SliceGrows<T>(s: seq<T>, lo: nat, i: nat)
    requires lo <= i < |s|
    ensures |s[lo..i + 1]| > 0 && s[lo..i + 1][..|s[lo..i + 1]| - 1] == s[lo..i] && s[lo..i + 1][|s[lo..i + 1]| - 1] == s[i]
  {
  }

  method FilterResubmittable(txs: seq<Tx>) returns (out: seq<Tx>)
    ensures out == ResubmittableIn(txs)
  {
    out := [];
    for i := 0 to |txs|
      invariant out == ResubmittableIn(txs[..i])
    {
      Extend(txs, i);
      if Resubmittable(txs[i]) { out := out + [txs[i]]; }
    }
    assert txs[..|txs|] == txs;
  }

  /** The fields published with a new tip. */
  method MakeFront(env: Env, ch: seq<Block>, s: State, committed: State) returns (f: Front)
    requires |ch| > 0 && LedgerOf(env, ch) == Some(s) && committed == s
    ensures f.tip == ch[|ch| - 1].hash && f.active == ch && StateShown(env, f) == Some(s)
  {
    var root := Frozen.Root(env.crypto, committed);
    var balances, nonces := Frozen.Maps(s);
    var confirmed := IndexConfirmed(ch);
    f := Front(ch[|ch| - 1].hash, ch, balances, nonces, s.genesisSupply, s.miningIssued, s.supply, confirmed, root);
    FrontShows(env, f, ch, s);
  }

  /** The loop that rebuilds `confirmedTx`. */
  method IndexConfirmed(ch: seq<Block>) returns (ids: set<Text>)
    ensures ids == ConfirmedIds(ch)
  {
    ids := {};
    for i := 0 to |ch|
      invariant ids == ConfirmedIds(ch[..i])
    {
      assert ch[..i + 1][..i] == ch[..i];
      if ch[i].header.index != 0 { ids := ids + IdSet(ch[i].txs); }
    }
    assert ch[..|ch|] == ch;
  }

  lemma ReversedSnoc<T>(s: seq<T>)
    requires |s| > 0
    ensures Reversed(s) == [s[|s| - 1]] + Reversed(s[..|s| - 1])
  {
  }

  /** The two-index swap loop at the end of `buildChain`. */
  method Reverse<T>(s: seq<T>) returns (r: seq<T>)
    ensures r == Reversed(s)
  {
    r := s;
    var i, j := 0, |s| - 1;
    while i < j
      invariant 0 <= i <= |s| && -1 <= j == |s| - 1 - i && |r| == |s|
      invariant forall k :: 0 <= k < i ==> r[k] == s[|s| - 1 - k]
      invariant forall k :: j < k < |s| ==> r[k] == s[|s| - 1 - k]
      invariant forall k :: i <= k <= j ==> r[k] == s[k]
    {
      r := r[i := r[j]][j := r[i]];
      i, j := i + 1, j - 1;
    }
  }
}
