/** The store and chain objects of the Python reference node. (blockchain/storage.py, blockchain/blockchain.py) */
module BalanceOps {
  import opened Base
  import opened Protocol
  import opened Retarget
  import opened BalanceCache
  import opened ReferenceRules

  /** The SQL tables; a method that fails leaves them as they were. */
  class BalanceStore {
    var blocks: map<int, Block>
    var rows: map<Text, Row>
    var wallets: map<Text, int>

    constructor ()
      ensures Table() == NOTHING && wallets == map[]
    {
      blocks, rows, wallets := map[], map[], map[];
    }

    function Table(): Tables
      reads this
    { Tables(blocks, rows) }

    /** `save_block`: one transaction over both tables. */
    method SaveBlock(b: Block) returns (ok: bool)
      modifies this`blocks, this`rows
      ensures ok == InsertBlock(old(Table()), b).Some?
      ensures Table() == if ok then InsertBlock(old(Table()), b).value else old(Table())
    {
      var t := InsertOne(Table(), b);
      if t.None? { return false; }
      blocks, rows := t.value.blocks, t.value.rows;
      ok := true;
    }

    /** `update_balances_for_block`. */
    method UpdateBalancesForBlock(b: Block)
      modifies this`wallets
      ensures wallets == AppliedTxs(old(wallets), b.txs, 1)
    {
      for i := 0 to |b.txs|
        invariant wallets == AppliedTxs(old(wallets), b.txs[..i], 1)
      {
        Extend(b.txs, i);
        wallets := AppliedTx(wallets, b.txs[i], 1);
      }
      WholeSlice(b.txs);
    }

    /** `load_chain`: the block rows in order of their index. */
    method LoadChain(ghost ch: seq<Block>) returns (loaded: seq<Block>)
      requires Mirrors(Table(), wallets, ch)
      ensures loaded == ch
    {
      TablesShape(ch);
      CountUpTo(blocks.Keys, |ch|);
      loaded := [];
      for i := 0 to |blocks.Keys|
        invariant |blocks.Keys| == |ch| && loaded == ch[..i]
      {
        loaded := loaded + [blocks[i]];
      }
    }

    /** `get_balance`: the cached row, or the sum over the transaction table. */
    method GetBalance(a: Text) returns (v: int)
      ensures v == if a in wallets then wallets[a] else History(rows, a)
    {
      if a in wallets { return wallets[a]; }
      v := ComputeFromHistory(a);
    }

    /** `_compute_balance_from_history`. */
    method ComputeFromHistory(a: Text) returns (v: int)
      ensures v == History(rows, a)
    {
      var todo, totalIn, totalOut := rows, 0, 0;
      while todo != map[]
        invariant totalIn - totalOut + History(todo, a) == History(rows, a)
        decreases |todo|
      {
        var h :| h in todo;
        HistorySplit(todo, h, a);
        if todo[h].receiver == a { totalIn := totalIn + todo[h].amount; }
        if todo[h].sender == a { totalOut := totalOut + todo[h].amount; }
        todo := todo - {h};
      }
      v := totalIn - totalOut;
    }

    /** `reorganize_from`: undo, delete, insert and redo in one transaction. */
    method ReorganizeFrom(fork: nat, bs: seq<Block>, ghost ch: seq<Block>) returns (ok: bool)
      requires Mirrors(Table(), wallets, ch) && fork <= |ch|
      modifies this
      ensures ok == InsertAll(Below(old(Table()), fork), bs).Some?
      ensures Table() == if ok then InsertAll(Below(old(Table()), fork), bs).value else old(Table())
      ensures wallets == if ok then Redone(Undone(old(wallets), ch[fork..]), bs) else old(wallets)
    {
      var w := UndoStored(fork, ch);
      var t := Below(Table(), fork);
      var i := 0;
      ok := true;
      ghost var inserting := set n | 0 <= n <= |bs| && InsertAll(Below(old(Table()), fork), bs[..n]).Some?;
      while ok && i < |bs|
        invariant 0 <= i <= |bs| && (ok <==> i in inserting)
        invariant Table() == old(Table()) && wallets == old(wallets)
        invariant ok ==> InsertAll(Below(old(Table()), fork), bs[..i]) == Some(t)
        invariant ok ==> w == Redone(Undone(old(wallets), ch[fork..]), bs[..i])
      {
        Extend(bs, i);
        var u := InsertOne(t, bs[i]);
        ok := u.Some?;
        if ok {
          t := u.value;
          w := RedoBlock(w, bs[i]);
        }
        i := i + 1;
      }
      WholeSlice(bs);
      if !ok {
        FailsEarly(Below(old(Table()), fork), bs, i);
        return;
      }
      blocks, rows, wallets := t.blocks, t.rows, w;
    }

    /** The reversal loop over the stored blocks from the tip down to the fork. */
    method UndoStored(fork: nat, ghost ch: seq<Block>) returns (w: map<Text, int>)
      requires Mirrors(Table(), wallets, ch) && fork <= |ch|
      ensures w == Undone(wallets, ch[fork..])
    {
      TablesShape(ch);
      w := wallets;
      ghost var gone := ch[fork..];
      var i := |blocks.Keys|;
      CountUpTo(blocks.Keys, |ch|);
      WholeSlice(gone);
      while i > fork
        invariant fork <= i <= |ch| && Undone(w, gone[..i - fork]) == Undone(wallets, gone)
      {
        i := i - 1;
        Extend(gone, i - fork);
        assert gone[i - fork] == ch[i] == blocks[i];
        w := UndoBlock(w, blocks[i]);
      }
      assert gone[..0] == [];
    }
  }

  lemma {:induction false} CountUpTo(s: set<int>, n: nat)
    requires forall i :: i in s <==> 0 <= i < n
    ensures |s| == n
    decreases n
  {
    if n > 0 {
      var rest := s - {n - 1};
      CountUpTo(rest, n - 1);
      assert s == rest + {n - 1};
    } else {
      assert forall i :: i !in s;
      assert |s| == 0;
    }
  }

  lemma {:induction false} FailsEarly(t: Tables, bs: seq<Block>, i: nat)
    requires i <= |bs| && InsertAll(t, bs[..i]).None?
    ensures InsertAll(t, bs).None?
    decreases |bs|
  {
    if i == |bs| {
      WholeSlice(bs);
    } else {
      assert bs[..|bs| - 1][..i] == bs[..i];
      FailsEarly(t, bs[..|bs| - 1], i);
    }
  }

  method UndoBlock(w: map<Text, int>, b: Block) returns (v: map<Text, int>)
    ensures v == AppliedTxs(w, b.txs, -1)
  {
    v := w;
    for i := 0 to |b.txs|
      invariant v == AppliedTxs(w, b.txs[..i], -1)
    {
      Extend(b.txs, i);
      v := AppliedTx(v, b.txs[i], -1);
    }
    WholeSlice(b.txs);
  }

  method RedoBlock(w: map<Text, int>, b: Block) returns (v: map<Text, int>)
    ensures v == AppliedTxs(w, b.txs, 1)
  {
    v := w;
    for i := 0 to |b.txs|
      invariant v == AppliedTxs(w, b.txs[..i], 1)
    {
      Extend(b.txs, i);
      v := AppliedTx(v, b.txs[i], 1);
    }
    WholeSlice(b.txs);
  }

  method InsertOne(t: Tables, b: Block) returns (u: Option<Tables>)
    ensures u == InsertBlock(t, b)
  {
    if b.header.index in t.blocks || (exists i :: i in t.blocks && t.blocks[i].hash == b.hash) { return None; }
    var rows := t.rows;
    ghost var first := InsertRows(t.rows, b.header.index, b.txs[..0]);
    for i := 0 to |b.txs|
      invariant InsertRows(t.rows, b.header.index, b.txs[..i]) == Some(rows)
    {
      Extend(b.txs, i);
      var tx := b.txs[i];
      if tx.txHash in rows {
        RowsFailEarly(t.rows, b.header.index, b.txs, i + 1);
        return None;
      }
      rows := rows[tx.txHash := RowOf(b.header.index, tx)];
    }
    WholeSlice(b.txs);
    u := Some(Tables(t.blocks[b.header.index := b], rows));
  }

  lemma {:induction false} RowsFailEarly(rows: map<Text, Row>, index: int, txs: seq<Tx>, i: nat)
    requires i <= |txs| && InsertRows(rows, index, txs[..i]).None?
    ensures InsertRows(rows, index, txs).None?
    decreases |txs|
  {
    if i == |txs| {
      WholeSlice(txs);
    } else {
      assert txs[..|txs| - 1][..i] == txs[..i];
      RowsFailEarly(rows, index, txs[..|txs| - 1], i);
    }
  }

  // ---- the chain -----------------------------------------------------------

  lemma {:induction false} SharedPrefix(a: seq<Block>, b: seq<Block>)
    requires forall x, y :: x in a && y in b && x.hash == y.hash ==> x == y
    ensures a[..CommonLength(a, b)] == b[..CommonLength(a, b)]
    decreases |a|
  {
    if a != [] && b != [] && a[0].hash == b[0].hash {
      SharedPrefix(a[1..], b[1..]);
      var n := CommonLength(a[1..], b[1..]);
      assert a[..1 + n] == [a[0]] + a[1..][..n] && b[..1 + n] == [b[0]] + b[1..][..n];
    }
  }

  /** How an append ends: refused by validation, refused by the store after memory has grown, or done. */
  datatype Appending = Rejected | StorageFailed | Appended

  class ReferenceChain {
    const policy: Policy
    const storage: BalanceStore
    var chain: seq<Block>

    /** Memory and tables hold the same valid chain, and the cache its balances. */
    ghost predicate Valid()
      reads this, storage
    {
      && 0 <= policy.config.minDifficulty
      && Mirrors(storage.Table(), storage.wallets, chain)
      && chain != [] && chain[0] == Genesis(policy.crypto)
      && ValidReference(policy, chain)
    }

    /** `__init__`: the stored chain, or the genesis block in an empty store. */
    constructor (policy: Policy, storage: BalanceStore, ghost stored: seq<Block>)
      requires 0 <= policy.config.minDifficulty && Mirrors(storage.Table(), storage.wallets, stored)
      requires stored != [] ==> stored[0] == Genesis(policy.crypto) && ValidReference(policy, stored)
      modifies storage
      ensures this.policy == policy && this.storage == storage
      ensures Valid() && chain == if stored == [] then [Genesis(policy.crypto)] else stored
    {
      this.policy, this.storage := policy, storage;
      chain := [];
      new;
      chain := storage.LoadChain(stored);
      if chain == [] {
        var g := Genesis(policy.crypto);
        GenesisStored(policy, storage.Table(), storage.wallets);
        var ok := storage.SaveBlock(g);
        storage.UpdateBalancesForBlock(g);
        chain := [g];
      }
    }

    /** The persisted chain is the chain in memory. */
    lemma PersistedIsMemory()
      requires Valid()
      ensures forall i :: i in storage.blocks <==> 0 <= i < |chain|
      ensures forall i :: 0 <= i < |chain| ==> storage.blocks[i] == chain[i]
    {
      TablesShape(chain);
    }

    /** `get_balance`: what recomputation from genesis gives every address but the coinbase sender. */
    method GetBalance(a: Text) returns (v: int)
      requires Valid() && a != COINBASE_SENDER
      ensures StateFromChain(policy, chain).Some? && v == Held(StateFromChain(policy, chain).value.balances, a)
    {
      GenesisIsStill(policy.crypto);
      CacheIsRecomputation(policy, storage.Table(), storage.wallets, chain, a);
      v := storage.GetBalance(a);
    }

    /** `total_supply_base_units`. */
    method TotalSupply() returns (total: int)
      requires Valid()
      ensures StateFromChain(policy, chain).Some? && total == StateFromChain(policy, chain).value.supply
    {
      GenesisIsStill(policy.crypto);
      SupplyIsMinted(policy, chain);
      total := 0;
      for i := 0 to |chain|
        invariant total == ChainMinted(chain[..i])
      {
        Extend(chain, i);
        var minted := SumMinted(chain[i].txs);
        total := total + minted;
      }
      WholeSlice(chain);
    }

    /**
     * The append section of `mine_pending_transactions`. Memory grows before the store is asked, so a
     * valid block that repeats a recorded hash leaves memory one block ahead of the tables.
     */
    method Append(b: Block) returns (end: Appending)
      requires Valid()
      modifies this`chain, storage
      ensures end == if !ValidNext(policy, old(chain), b) then Rejected else if Unused(old(chain), b) then Appended else StorageFailed
      ensures chain == if end == Rejected then old(chain) else old(chain) + [b]
      ensures Valid() <==> end != StorageFailed
      ensures end != Appended ==> storage.Table() == old(storage.Table()) && storage.wallets == old(storage.wallets)
    {
      var valid := ValidateNext(policy, chain, b);
      if !valid { return Rejected; }
      ghost var before := chain;
      NextStored(policy, storage.Table(), storage.wallets, chain, b);
      chain := chain + [b];
      var ok := storage.SaveBlock(b);
      if !ok { return StorageFailed; }
      storage.UpdateBalancesForBlock(b);
      end := Appended;
    }

    /** `_find_fork_index`. */
    method FindForkIndex(candidate: seq<Block>) returns (n: nat)
      ensures n == CommonLength(chain, candidate)
    {
      n := 0;
      assert chain[0..] == chain && candidate[0..] == candidate;
      while n < |chain| && n < |candidate|
        invariant n <= |chain| && n <= |candidate|
        invariant CommonLength(chain, candidate) == n + CommonLength(chain[n..], candidate[n..])
      {
        if chain[n].hash != candidate[n].hash { return; }
        assert chain[n..][1..] == chain[n + 1..] && candidate[n..][1..] == candidate[n + 1..];
        n := n + 1;
      }
    }

    /** `replace_chain`; a store that refuses a row rolls back, and the chain in memory stays. */
    method ReplaceChain(candidate: seq<Block>) returns (ok: bool)
      requires Valid()
      requires forall x, y :: x in chain && y in candidate && x.hash == y.hash ==> x == y
      modifies this`chain, storage
      ensures Valid()
      ensures ok <==> && candidate != [] && candidate[0].hash == old(chain)[0].hash
                      && ChainWork(candidate) > ChainWork(old(chain))
                      && ValidReference(policy, candidate) && Recordable(candidate)
      ensures chain == if ok then candidate else old(chain)
    {
      if |candidate| == 0 || candidate[0].hash != chain[0].hash { return false; }
      var theirs := ComputeChainWork(candidate);
      var ours := ComputeChainWork(chain);
      if theirs <= ours { return false; }
      ok := ValidateChain(policy, candidate);
      if !ok { return; }
      ok := Reorganize(candidate);
    }

    /** The second half: cut at the fork, rewrite from there. */
    method Reorganize(candidate: seq<Block>) returns (ok: bool)
      requires Valid() && ValidReference(policy, candidate) && candidate[0].hash == chain[0].hash
      requires forall x, y :: x in chain && y in candidate && x.hash == y.hash ==> x == y
      modifies this`chain, storage
      ensures Valid() && ok == Recordable(candidate)
      ensures chain == if ok then candidate else old(chain)
    {
      var fork := FindForkIndex(candidate);
      ForkStored(policy, storage.Table(), storage.wallets, chain, candidate);
      ok := storage.ReorganizeFrom(fork, candidate[fork..], chain);
      if ok { chain := candidate; }
    }
  }

  method SumMinted(txs: seq<Tx>) returns (total: int)
    ensures total == Minted(txs)
  {
    total := 0;
    for i := 0 to |txs|
      invariant total == Minted(txs[..i])
    {
      Extend(txs, i);
      if txs[i].sender == COINBASE_SENDER { total := total + txs[i].amount; }
    }
    WholeSlice(txs);
  }

  // ---- the genesis block ---------------------------------------------------

  lemma GenesisIsStill(c: Crypto)
    ensures Still(Genesis(c)) && Genesis(c).header.index == 0
  {
  }

  lemma {:induction false} GenesisIsValid(p: Policy)
    requires 0 <= p.config.minDifficulty
    ensures ValidReference(p, [Genesis(p.crypto)])
  {
    var g := Genesis(p.crypto);
    assert TxHashes(g.txs) == [g.header.merkleRoot];
    assert [g][..0] == [];
  }

  lemma {:induction false} GenesisStored(p: Policy, t: Tables, w: map<Text, int>)
    requires 0 <= p.config.minDifficulty && Mirrors(t, w, [])
    ensures var g := Genesis(p.crypto);
            && InsertBlock(t, g).Some? && Mirrors(InsertBlock(t, g).value, AppliedTxs(w, g.txs, 1), [g])
            && ValidReference(p, [g])
  {
    var g := Genesis(p.crypto);
    GenesisIsValid(p);
    AppendIsReorganize(t, w, [], g);
    assert [] + [g] == [g];
    BlockFits(t, [], g);
    assert TxHashes(g.txs) == [g.txs[0].txHash];
  }

  // ---- appending and replacing ---------------------------------------------

  lemma {:induction false} OneBlock(t: Tables, w: map<Text, int>, b: Block)
    ensures InsertAll(t, [b]) == InsertBlock(t, b) && Redone(w, [b]) == AppliedTxs(w, b.txs, 1)
  {
    var one := [b];
    assert one[..|one| - 1] == [] && one[|one| - 1] == b;
    assert InsertAll(t, []) == Some(t) && Redone(w, []) == w;
  }

  /** Appending is a reorganisation that undoes nothing. */
  lemma {:induction false} AppendIsReorganize(t: Tables, w: map<Text, int>, ch: seq<Block>, b: Block)
    requires Mirrors(t, w, ch) && b.header.index == |ch|
    ensures InsertBlock(t, b) == InsertAll(NOTHING, ch + [b])
    ensures InsertBlock(t, b).Some? ==> Mirrors(InsertBlock(t, b).value, AppliedTxs(w, b.txs, 1), ch + [b])
  {
    TablesShape(ch);
    WholeSlice(ch);
    assert Below(t, |ch|) == t;
    OneBlock(t, w, b);
    ReorganizeSucceeds(t, w, ch, |ch|, [b]);
    assert ch[|ch|..] == [];
    if InsertBlock(t, b).Some? { ReorganizeKeeps(t, w, ch, |ch|, [b]); }
  }

  lemma {:induction false} StartIndex(p: Policy, ch: seq<Block>)
    requires 0 <= p.config.minDifficulty && ValidReference(p, ch) && ch[0].header.index == 0
    ensures Indexed(ch)
  {
    forall i | 0 <= i < |ch|
      ensures ch[i].header.index == i
    {
      ValidIndexed(p, ch, i);
    }
  }

  /** A valid next block is stored exactly when it repeats no hash; then tables, cache and memory agree again. */
  lemma {:induction false} NextStored(p: Policy, t: Tables, w: map<Text, int>, ch: seq<Block>, b: Block)
    requires 0 <= p.config.minDifficulty && Mirrors(t, w, ch) && ch != [] && ValidReference(p, ch) && ValidNext(p, ch, b)
    ensures ValidReference(p, ch + [b]) && (InsertBlock(t, b).Some? <==> Unused(ch, b))
    ensures InsertBlock(t, b).Some? ==> Mirrors(InsertBlock(t, b).value, AppliedTxs(w, b.txs, 1), ch + [b])
    ensures InsertBlock(t, b).None? ==> !Mirrors(t, w, ch + [b])
  {
    ValidSnoc(p, ch, b);
    assert ch[|ch| - 1].header.index == |ch| - 1;
    AppendIsReorganize(t, w, ch, b);
    StoredIffRecordable(ch);
    BlockFits(t, ch, b);
  }

  /** A valid candidate with the same genesis block is stored exactly when it repeats no hash. */
  lemma {:induction false} ForkStored(p: Policy, t: Tables, w: map<Text, int>, ch: seq<Block>, candidate: seq<Block>)
    requires 0 <= p.config.minDifficulty && Mirrors(t, w, ch) && ch != [] && ch[0].header.index == 0
    requires ValidReference(p, candidate) && candidate[0].hash == ch[0].hash
    requires forall x, y :: x in ch && y in candidate && x.hash == y.hash ==> x == y
    ensures candidate[0] == ch[0]
    ensures var fork := CommonLength(ch, candidate);
            var u := InsertAll(Below(t, fork), candidate[fork..]);
            && (u.Some? <==> Recordable(candidate))
            && (u.Some? ==> Mirrors(u.value, Redone(Undone(w, ch[fork..]), candidate[fork..]), candidate))
  {
    assert ch[0] in ch && candidate[0] in candidate;
    StartIndex(p, candidate);
    SharedPrefix(ch, candidate);
    var fork := CommonLength(ch, candidate);
    assert ch[..fork] + candidate[fork..] == candidate;
    ReorganizeSucceeds(t, w, ch, fork, candidate[fork..]);
    StoredIffRecordable(candidate);
    if Recordable(candidate) { ReorganizeKeeps(t, w, ch, fork, candidate[fork..]); }
  }
}
