/**
 * The Python reference node's balance cache: rows adjusted block by block, undone and redone on a
 * reorganisation. (blockchain/storage.py, blockchain/blockchain.py, blockchain/validators.py)
 */
module BalanceCache {
  import opened Base
  import opened Protocol
  import opened Retarget

  // ---- what a chain does to a balance --------------------------------------

  function Delta(tx: Tx, a: Text): int {
    (if tx.receiver == a then tx.amount else 0) - (if tx.sender == a && tx.sender != COINBASE_SENDER then tx.amount else 0)
  }

  function TxsDelta(txs: seq<Tx>, a: Text): int
    decreases |txs|
  {
    if txs == [] then 0 else TxsDelta(txs[..|txs| - 1], a) + Delta(txs[|txs| - 1], a)
  }

  function ChainDelta(ch: seq<Block>, a: Text): int
    decreases |ch|
  {
    if ch == [] then 0 else ChainDelta(ch[..|ch| - 1], a) + TxsDelta(ch[|ch| - 1].txs, a)
  }

  lemma {:induction false} DeltaJoin(a: seq<Block>, b: seq<Block>, k: Text)
    ensures ChainDelta(a + b, k) == ChainDelta(a, k) + ChainDelta(b, k)
    decreases |b|
  {
    if b == [] {
      assert a + b == a;
    } else {
      DeltaJoin(a, b[..|b| - 1], k);
      assert (a + b)[..|a + b| - 1] == a + b[..|b| - 1] && (a + b)[|a + b| - 1] == b[|b| - 1];
    }
  }

  // ---- the tables ----------------------------------------------------------

  datatype Row = Row(blockIndex: int, sender: Text, receiver: Text, amount: u64)

  /** The block table and the transaction table. */
  datatype Tables = Tables(blocks: map<int, Block>, rows: map<Text, Row>)

  function RowOf(index: int, tx: Tx): Row { Row(index, tx.sender, tx.receiver, tx.amount) }

  /** Inserts transaction rows; the hash is the primary key. */
  function InsertRows(rows: map<Text, Row>, index: int, txs: seq<Tx>): Option<map<Text, Row>>
    decreases |txs|
  {
    if txs == [] then Some(rows)
    else
      var r :- InsertRows(rows, index, txs[..|txs| - 1]);
      var tx := txs[|txs| - 1];
      if tx.txHash in r then None else Some(r[tx.txHash := RowOf(index, tx)])
  }

  /** Inserts a block row; index and hash are unique. */
  function InsertBlock(t: Tables, b: Block): Option<Tables> {
    if b.header.index in t.blocks || (exists i :: i in t.blocks && t.blocks[i].hash == b.hash) then None
    else
      var r :- InsertRows(t.rows, b.header.index, b.txs);
      Some(Tables(t.blocks[b.header.index := b], r))
  }

  function InsertAll(t: Tables, bs: seq<Block>): Option<Tables>
    decreases |bs|
  {
    if bs == [] then Some(t)
    else
      var u :- InsertAll(t, bs[..|bs| - 1]);
      InsertBlock(u, bs[|bs| - 1])
  }

  const NOTHING: Tables := Tables(map[], map[])

  /** The rows left below a fork. */
  function Below(t: Tables, fork: int): Tables {
    Tables(map i | i in t.blocks && i < fork :: t.blocks[i], map h | h in t.rows && t.rows[h].blockIndex < fork :: t.rows[h])
  }

  predicate Indexed(ch: seq<Block>) {
    forall i :: 0 <= i < |ch| ==> ch[i].header.index == i
  }

  lemma {:induction false} InsertAllSplit(t: Tables, a: seq<Block>, b: seq<Block>)
    ensures InsertAll(t, a + b) == match InsertAll(t, a) case None => None case Some(u) => InsertAll(u, b)
    decreases |b|
  {
    if b == [] {
      assert a + b == a;
    } else {
      InsertAllSplit(t, a, b[..|b| - 1]);
      assert (a + b)[..|a + b| - 1] == a + b[..|b| - 1] && (a + b)[|a + b| - 1] == b[|b| - 1];
    }
  }

  lemma {:induction false} RowsKept(rows: map<Text, Row>, index: int, txs: seq<Tx>)
    requires InsertRows(rows, index, txs).Some?
    ensures forall h :: h in rows ==> h in InsertRows(rows, index, txs).value && InsertRows(rows, index, txs).value[h] == rows[h]
    ensures forall h :: h in InsertRows(rows, index, txs).value && h !in rows ==> InsertRows(rows, index, txs).value[h].blockIndex == index
    decreases |txs|
  {
    if txs != [] { RowsKept(rows, index, txs[..|txs| - 1]); }
  }

  /** What the tables of a chain hold: every block under its index, and only rows of its blocks. */
  lemma {:induction false} TablesShape(ch: seq<Block>)
    requires Indexed(ch) && InsertAll(NOTHING, ch).Some?
    ensures var t := InsertAll(NOTHING, ch).value;
            && (forall i :: i in t.blocks <==> 0 <= i < |ch|)
            && (forall i :: 0 <= i < |ch| ==> t.blocks[i] == ch[i])
            && (forall h :: h in t.rows ==> 0 <= t.rows[h].blockIndex < |ch|)
    decreases |ch|
  {
    if ch != [] {
      var init, b := ch[..|ch| - 1], ch[|ch| - 1];
      TablesShape(init);
      RowsKept(InsertAll(NOTHING, init).value.rows, b.header.index, b.txs);
    }
  }

  // ---- which chains can be stored ------------------------------------------

  function TxHashes(txs: seq<Tx>): seq<Text> { seq(|txs|, i requires 0 <= i < |txs| => txs[i].txHash) }
  function BlockHashes(ch: seq<Block>): seq<Text> { seq(|ch|, i requires 0 <= i < |ch| => ch[i].hash) }

  function ChainTxHashes(ch: seq<Block>): seq<Text>
    decreases |ch|
  {
    if ch == [] then [] else ChainTxHashes(ch[..|ch| - 1]) + TxHashes(ch[|ch| - 1].txs)
  }

  /** A block that repeats neither a block hash nor a transaction hash. */
  predicate Unused(ch: seq<Block>, b: Block) {
    b.hash !in BlockHashes(ch) && Distinct(TxHashes(b.txs)) && Disjoint(ChainTxHashes(ch), TxHashes(b.txs))
  }

  /** No block hash and no transaction hash occurs twice. */
  predicate Recordable(ch: seq<Block>) {
    Distinct(BlockHashes(ch)) && Distinct(ChainTxHashes(ch))
  }

  /** The primary key: rows go in exactly when their hashes are new and distinct. */
  lemma {:induction false} RowsFit(rows: map<Text, Row>, index: int, txs: seq<Tx>)
    ensures InsertRows(rows, index, txs).Some? <==> Distinct(TxHashes(txs)) && forall h :: h in TxHashes(txs) ==> h !in rows
    ensures InsertRows(rows, index, txs).Some? ==>
              forall h :: h in InsertRows(rows, index, txs).value <==> h in rows || h in TxHashes(txs)
    decreases |txs|
  {
    if txs != [] {
      var init, h := txs[..|txs| - 1], txs[|txs| - 1].txHash;
      RowsFit(rows, index, init);
      assert TxHashes(txs) == TxHashes(init) + [h];
      DistinctJoin(TxHashes(init), [h]);
      assert h in [h];
    }
  }

  /** The next block goes in exactly when it repeats nothing. */
  lemma BlockFits(t: Tables, ch: seq<Block>, b: Block)
    requires Indexed(ch) && InsertAll(NOTHING, ch) == Some(t) && b.header.index == |ch|
    requires forall h :: h in t.rows <==> h in ChainTxHashes(ch)
    ensures InsertBlock(t, b).Some? <==> Unused(ch, b)
  {
    TablesShape(ch);
    RowsFit(t.rows, b.header.index, b.txs);
    if b.hash in BlockHashes(ch) {
      var i :| 0 <= i < |ch| && BlockHashes(ch)[i] == b.hash;
      assert i in t.blocks && t.blocks[i].hash == b.hash;
    }
    if i :| i in t.blocks && t.blocks[i].hash == b.hash {
      assert BlockHashes(ch)[i] == b.hash;
    }
  }

  /** Exactly the chains that repeat no block hash and no transaction hash can be stored. */
  lemma {:induction false} StoredIffRecordable(ch: seq<Block>)
    requires Indexed(ch)
    ensures InsertAll(NOTHING, ch).Some? <==> Recordable(ch)
    ensures InsertAll(NOTHING, ch).Some? ==> forall h :: h in InsertAll(NOTHING, ch).value.rows <==> h in ChainTxHashes(ch)
    decreases |ch|
  {
    if ch != [] {
      var init, b := ch[..|ch| - 1], ch[|ch| - 1];
      StoredIffRecordable(init);
      RecordableStep(init, b);
      SplitLast(ch);
      if InsertAll(NOTHING, init).Some? {
        BlockFits(InsertAll(NOTHING, init).value, init, b);
        RowsFit(InsertAll(NOTHING, init).value.rows, b.header.index, b.txs);
      }
    }
  }

  lemma RecordableStep(ch: seq<Block>, b: Block)
    ensures Recordable(ch + [b]) <==> Recordable(ch) && Unused(ch, b)
  {
    LastOf(ch, b);
    assert BlockHashes(ch + [b]) == BlockHashes(ch) + [b.hash];
    DistinctJoin(BlockHashes(ch), [b.hash]);
    assert b.hash in [b.hash];
    DistinctJoin(ChainTxHashes(ch), TxHashes(b.txs));
  }

  /** Cutting the tables at a fork leaves the tables of the shared prefix. */
  lemma {:induction false} BelowIsPrefix(ch: seq<Block>, fork: nat)
    requires Indexed(ch) && InsertAll(NOTHING, ch).Some? && fork <= |ch|
    ensures InsertAll(NOTHING, ch[..fork]) == Some(Below(InsertAll(NOTHING, ch).value, fork))
    decreases |ch|
  {
    if fork == |ch| {
      assert ch[..fork] == ch;
      TablesShape(ch);
      assert Below(InsertAll(NOTHING, ch).value, fork) == InsertAll(NOTHING, ch).value;
    } else {
      var init, b := ch[..|ch| - 1], ch[|ch| - 1];
      BelowIsPrefix(init, fork);
      TablesShape(init);
      assert init[..fork] == ch[..fork];
      LastIsAbove(InsertAll(NOTHING, init).value, b, fork);
    }
  }

  lemma LastIsAbove(t: Tables, b: Block, fork: int)
    requires InsertBlock(t, b).Some? && b.header.index >= fork
    ensures Below(InsertBlock(t, b).value, fork) == Below(t, fork)
  {
    RowsKept(t.rows, b.header.index, b.txs);
  }

  // ---- the store -----------------------------------------------------------

  function Held(wallets: map<Text, int>, a: Text): int { if a in wallets then wallets[a] else 0 }

  /** Every party of a stored row, the coinbase sender excepted, has a wallet row. */
  ghost predicate Covers(wallets: map<Text, int>, rows: map<Text, Row>) {
    forall h :: h in rows ==> rows[h].receiver in wallets && (rows[h].sender == COINBASE_SENDER || rows[h].sender in wallets)
  }

  predicate TxCovered(wallets: map<Text, int>, tx: Tx) {
    tx.receiver in wallets && (tx.sender == COINBASE_SENDER || tx.sender in wallets)
  }

  function Part(r: Row, a: Text): int { (if r.receiver == a then r.amount else 0) - (if r.sender == a then r.amount else 0) }

  /** The sum over the transaction table that a missing wallet row falls back to. */
  ghost function History(rows: map<Text, Row>, a: Text): int
    decreases |rows|
  {
    if rows == map[] then 0
    else
      var h :| h in rows;
      Part(rows[h], a) + History(rows - {h}, a)
  }

  lemma {:induction false} HistorySplit(rows: map<Text, Row>, h: Text, a: Text)
    requires h in rows
    ensures History(rows, a) == Part(rows[h], a) + History(rows - {h}, a)
    decreases |rows|
  {
    var j :| j in rows && History(rows, a) == Part(rows[j], a) + History(rows - {j}, a);
    if j != h {
      HistorySplit(rows - {j}, h, a);
      HistorySplit(rows - {h}, j, a);
      assert rows - {j} - {h} == rows - {h} - {j};
    }
  }

  lemma {:induction false} NoHistory(rows: map<Text, Row>, a: Text)
    requires forall h :: h in rows ==> rows[h].receiver != a && rows[h].sender != a
    ensures History(rows, a) == 0
    decreases |rows|
  {
    if rows != map[] {
      var h :| h in rows;
      HistorySplit(rows, h, a);
      NoHistory(rows - {h}, a);
    }
  }

  /** `_apply_balance_delta_conn`. */
  function Adjusted(w: map<Text, int>, a: Text, d: int): map<Text, int> { w[a := Held(w, a) + d] }

  /** One transaction, forwards (1) or backwards (-1). */
  function AppliedTx(w: map<Text, int>, tx: Tx, sign: int): map<Text, int> {
    var v := if tx.sender != COINBASE_SENDER then Adjusted(w, tx.sender, -sign * tx.amount) else w;
    Adjusted(v, tx.receiver, sign * tx.amount)
  }

  lemma AppliedDelta(w: map<Text, int>, tx: Tx, sign: int, a: Text)
    requires sign == 1 || sign == -1
    ensures Held(AppliedTx(w, tx, sign), a) == Held(w, a) + sign * Delta(tx, a)
    ensures w.Keys <= AppliedTx(w, tx, sign).Keys && TxCovered(AppliedTx(w, tx, sign), tx)
  {
  }

  /** A list of transactions, first to last. */
  function AppliedTxs(w: map<Text, int>, txs: seq<Tx>, sign: int): map<Text, int>
    decreases |txs|
  {
    if txs == [] then w else AppliedTx(AppliedTxs(w, txs[..|txs| - 1], sign), txs[|txs| - 1], sign)
  }

  predicate TxsCovered(w: map<Text, int>, txs: seq<Tx>) {
    forall i :: 0 <= i < |txs| ==> TxCovered(w, txs[i])
  }

  lemma {:induction false} AppliedAll(w: map<Text, int>, txs: seq<Tx>, sign: int, a: Text)
    requires sign == 1 || sign == -1
    ensures Held(AppliedTxs(w, txs, sign), a) == Held(w, a) + sign * TxsDelta(txs, a)
    ensures w.Keys <= AppliedTxs(w, txs, sign).Keys && TxsCovered(AppliedTxs(w, txs, sign), txs)
    decreases |txs|
  {
    if txs != [] {
      var init, tx := txs[..|txs| - 1], txs[|txs| - 1];
      AppliedAll(w, init, sign, a);
      AppliedDelta(AppliedTxs(w, init, sign), tx, sign, a);
      assert forall i :: 0 <= i < |init| ==> init[i] == txs[i];
    }
  }

  /** Blocks applied first to last. */
  function Redone(w: map<Text, int>, bs: seq<Block>): map<Text, int>
    decreases |bs|
  {
    if bs == [] then w else AppliedTxs(Redone(w, bs[..|bs| - 1]), bs[|bs| - 1].txs, 1)
  }

  /** Blocks reversed last to first. */
  function Undone(w: map<Text, int>, bs: seq<Block>): map<Text, int>
    decreases |bs|
  {
    if bs == [] then w else Undone(AppliedTxs(w, bs[|bs| - 1].txs, -1), bs[..|bs| - 1])
  }

  lemma {:induction false} RedoneHolds(w: map<Text, int>, bs: seq<Block>, a: Text)
    ensures Held(Redone(w, bs), a) == Held(w, a) + ChainDelta(bs, a) && w.Keys <= Redone(w, bs).Keys
    decreases |bs|
  {
    if bs != [] {
      RedoneHolds(w, bs[..|bs| - 1], a);
      AppliedAll(Redone(w, bs[..|bs| - 1]), bs[|bs| - 1].txs, 1, a);
    }
  }

  lemma {:induction false} UndoneHolds(w: map<Text, int>, bs: seq<Block>, a: Text)
    ensures Held(Undone(w, bs), a) == Held(w, a) - ChainDelta(bs, a) && w.Keys <= Undone(w, bs).Keys
    decreases |bs|
  {
    if bs != [] {
      AppliedAll(w, bs[|bs| - 1].txs, -1, a);
      UndoneHolds(AppliedTxs(w, bs[|bs| - 1].txs, -1), bs[..|bs| - 1], a);
    }
  }

  // ---- rows stay covered ---------------------------------------------------

  lemma CoversMore(w: map<Text, int>, v: map<Text, int>, rows: map<Text, Row>)
    requires Covers(w, rows) && w.Keys <= v.Keys
    ensures Covers(v, rows)
  {
  }

  lemma {:induction false} InsertedCovered(w: map<Text, int>, rows: map<Text, Row>, index: int, txs: seq<Tx>)
    requires Covers(w, rows) && TxsCovered(w, txs) && InsertRows(rows, index, txs).Some?
    ensures Covers(w, InsertRows(rows, index, txs).value)
    decreases |txs|
  {
    if txs != [] {
      var init := txs[..|txs| - 1];
      assert forall i :: 0 <= i < |init| ==> init[i] == txs[i];
      InsertedCovered(w, rows, index, init);
      assert TxCovered(w, txs[|txs| - 1]);
    }
  }

  lemma {:induction false} RedoneCovers(w: map<Text, int>, t: Tables, bs: seq<Block>)
    requires Covers(w, t.rows) && InsertAll(t, bs).Some?
    ensures Covers(Redone(w, bs), InsertAll(t, bs).value.rows)
    decreases |bs|
  {
    if bs != [] {
      var init, b := bs[..|bs| - 1], bs[|bs| - 1];
      RedoneCovers(w, t, init);
      var v := Redone(w, init);
      AppliedAll(v, b.txs, 1, []);
      CoversMore(v, AppliedTxs(v, b.txs, 1), InsertAll(t, init).value.rows);
      InsertedCovered(AppliedTxs(v, b.txs, 1), InsertAll(t, init).value.rows, b.header.index, b.txs);
    }
  }

  // ---- the cache invariant -------------------------------------------------

  /** The persisted chain is the given one and every cached balance is its net effect. */
  ghost predicate Mirrors(t: Tables, w: map<Text, int>, ch: seq<Block>) {
    && Indexed(ch) && InsertAll(NOTHING, ch) == Some(t)
    && (forall a {:trigger Held(w, a)} :: Held(w, a) == ChainDelta(ch, a))
    && Covers(w, t.rows)
  }

  lemma ReorganizedBalance(w: map<Text, int>, ch: seq<Block>, fork: nat, bs: seq<Block>, a: Text)
    requires fork <= |ch| && Held(w, a) == ChainDelta(ch, a)
    ensures Held(Redone(Undone(w, ch[fork..]), bs), a) == ChainDelta(ch[..fork] + bs, a)
  {
    UndoneHolds(w, ch[fork..], a);
    RedoneHolds(Undone(w, ch[fork..]), bs, a);
    DeltaJoin(ch[..fork], ch[fork..], a);
    DeltaJoin(ch[..fork], bs, a);
    assert ch[..fork] + ch[fork..] == ch;
  }

  lemma ReorganizedCovers(t: Tables, w: map<Text, int>, gone: seq<Block>, fork: nat, bs: seq<Block>)
    requires Covers(w, t.rows) && InsertAll(Below(t, fork), bs).Some?
    ensures Covers(Redone(Undone(w, gone), bs), InsertAll(Below(t, fork), bs).value.rows)
  {
    UndoneHolds(w, gone, []);
    CoversMore(w, Undone(w, gone), Below(t, fork).rows);
    RedoneCovers(Undone(w, gone), Below(t, fork), bs);
  }

  /** The whole effect of `reorganize_from`: undoing and redoing gives what recomputation from genesis gives. */
  lemma ReorganizeKeeps(t: Tables, w: map<Text, int>, ch: seq<Block>, fork: nat, bs: seq<Block>)
    requires Mirrors(t, w, ch) && fork <= |ch| && Indexed(ch[..fork] + bs) && InsertAll(Below(t, fork), bs).Some?
    ensures Mirrors(InsertAll(Below(t, fork), bs).value, Redone(Undone(w, ch[fork..]), bs), ch[..fork] + bs)
  {
    ReorganizeSucceeds(t, w, ch, fork, bs);
    ReorganizedCovers(t, w, ch[fork..], fork, bs);
    forall a
      ensures Held(Redone(Undone(w, ch[fork..]), bs), a) == ChainDelta(ch[..fork] + bs, a)
    {
      assert Held(w, a) == ChainDelta(ch, a);
      ReorganizedBalance(w, ch, fork, bs, a);
    }
  }

  /** Below the fork plus the new blocks can be stored exactly when the whole new chain can. */
  lemma ReorganizeSucceeds(t: Tables, w: map<Text, int>, ch: seq<Block>, fork: nat, bs: seq<Block>)
    requires Mirrors(t, w, ch) && fork <= |ch|
    ensures InsertAll(Below(t, fork), bs) == InsertAll(NOTHING, ch[..fork] + bs)
  {
    BelowIsPrefix(ch, fork);
    InsertAllSplit(NOTHING, ch[..fork], bs);
  }

  /** A cached or recomputed balance is the net effect of the chain, for every address but the coinbase sender. */
  lemma ReadBalance(t: Tables, w: map<Text, int>, ch: seq<Block>, a: Text)
    requires Mirrors(t, w, ch) && a != COINBASE_SENDER
    ensures (if a in w then w[a] else History(t.rows, a)) == ChainDelta(ch, a)
  {
    if a !in w {
      assert Held(w, a) == ChainDelta(ch, a);
      NoHistory(t.rows, a);
    }
  }
}
