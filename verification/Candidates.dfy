/** Which transactions a reorganisation hands back, one by one. (internal/chain/chain.go) */
module Candidates {
  import opened Base
  import opened Protocol
  import opened Ledger
  import opened ChainMemory

  // ---- counting transfers --------------------------------------------------

  predicate IsTransfer(tx: Tx) { tx.version == 2 && tx.sender != COINBASE_SENDER }

  function TransfersIn(txs: seq<Tx>): nat {
    if txs == [] then 0 else TransfersIn(txs[..|txs| - 1]) + (if IsTransfer(txs[|txs| - 1]) then 1 else 0)
  }

  function TransfersOn(ch: seq<Block>): nat {
    if ch == [] then 0 else TransfersOn(ch[..|ch| - 1]) + TransfersIn(ch[|ch| - 1].txs)
  }

  lemma {:induction false} CollectedIn(txs: seq<Tx>)
    ensures |ResubmittableIn(txs)| == TransfersIn(txs)
    decreases |txs|
  {
    if txs != [] { CollectedIn(txs[..|txs| - 1]); }
  }

  lemma {:induction false} CollectedOn(ch: seq<Block>)
    ensures |ResubmittableOf(ch)| == TransfersOn(ch)
    decreases |ch|
  {
    if ch != [] {
      CollectedOn(ch[..|ch| - 1]);
      CollectedIn(ch[|ch| - 1].txs);
    }
  }

  lemma {:induction false} CollectedInAt(txs: seq<Tx>, j: nat)
    requires j < |txs| && IsTransfer(txs[j])
    ensures TransfersIn(txs[..j]) < TransfersIn(txs) == |ResubmittableIn(txs)|
    ensures ResubmittableIn(txs)[TransfersIn(txs[..j])] == txs[j]
    decreases |txs|
  {
    var init := txs[..|txs| - 1];
    CollectedIn(txs);
    CollectedIn(init);
    if j < |txs| - 1 {
      CollectedInAt(init, j);
      SliceOfSlice(txs, j);
    }
  }

  /** The transfers of a list of blocks in order: the one at block `i`, place `j` stands behind as many as come before it. */
  lemma {:induction false} CollectedAt(ch: seq<Block>, i: nat, j: nat)
    requires i < |ch| && j < |ch[i].txs| && IsTransfer(ch[i].txs[j])
    ensures TransfersOn(ch[..i]) + TransfersIn(ch[i].txs[..j]) < TransfersOn(ch) == |ResubmittableOf(ch)|
    ensures ResubmittableOf(ch)[TransfersOn(ch[..i]) + TransfersIn(ch[i].txs[..j])] == ch[i].txs[j]
    decreases |ch|
  {
    var init := ch[..|ch| - 1];
    CollectedOn(ch);
    CollectedOn(init);
    if i < |ch| - 1 {
      CollectedAt(init, i, j);
      SliceOfSlice(ch, i);
    } else {
      CollectedInAt(ch[i].txs, j);
    }
  }

  // ---- the shared part -----------------------------------------------------

  /** The two chains agree on their first `n` blocks and not on the next. */
  predicate PartAt(losing: seq<Block>, winning: seq<Block>, n: nat) {
    && n <= |losing| && n <= |winning|
    && (forall k :: 0 <= k < n ==> losing[k].hash == winning[k].hash)
    && (n < |losing| && n < |winning| ==> losing[n].hash != winning[n].hash)
  }

  lemma {:induction false} CommonParts(losing: seq<Block>, winning: seq<Block>)
    ensures PartAt(losing, winning, CommonLength(losing, winning))
    decreases |losing|
  {
    if losing != [] && winning != [] && losing[0].hash == winning[0].hash {
      CommonParts(losing[1..], winning[1..]);
      var n := CommonLength(losing[1..], winning[1..]);
      forall k | 0 <= k < n + 1
        ensures losing[k].hash == winning[k].hash
      {
        if k > 0 { assert losing[1..][k - 1].hash == winning[1..][k - 1].hash; }
      }
    }
  }

  lemma PartUnique(losing: seq<Block>, winning: seq<Block>, m: nat, n: nat)
    requires PartAt(losing, winning, m) && PartAt(losing, winning, n)
    ensures m == n
  {
  }

  /**
   * A reorganisation from one chain to another with the same genesis hands back every version 2 transfer
   * above the part they share, once for each time it occurs there, in chain order, and nothing else.
   */
  lemma CandidatesAreTransfersAbove(losing: seq<Block>, winning: seq<Block>, n: nat)
    requires 0 < n && PartAt(losing, winning, n)
    ensures |LosingTransactions(losing, winning)| == TransfersOn(losing[n..])
    ensures forall i, j :: n <= i < |losing| && 0 <= j < |losing[i].txs| && IsTransfer(losing[i].txs[j]) ==>
              var place := TransfersOn(losing[n..i]) + TransfersIn(losing[i].txs[..j]);
              place < |LosingTransactions(losing, winning)| && LosingTransactions(losing, winning)[place] == losing[i].txs[j]
  {
    CommonParts(losing, winning);
    PartUnique(losing, winning, n, CommonLength(losing, winning));
    CollectedOn(losing[n..]);
    forall i, j | n <= i < |losing| && 0 <= j < |losing[i].txs| && IsTransfer(losing[i].txs[j])
      ensures var place := TransfersOn(losing[n..i]) + TransfersIn(losing[i].txs[..j]);
              place < |LosingTransactions(losing, winning)| && LosingTransactions(losing, winning)[place] == losing[i].txs[j]
    {
      assert losing[n..][i - n] == losing[i] && losing[n..][..i - n] == losing[n..i];
      CollectedAt(losing[n..], i - n, j);
    }
  }

  lemma {:induction false} OriginIn(txs: seq<Tx>, tx: Tx) returns (j: nat)
    requires tx in ResubmittableIn(txs)
    ensures j < |txs| && txs[j] == tx && IsTransfer(tx)
    decreases |txs|
  {
    var init := txs[..|txs| - 1];
    if tx in ResubmittableIn(init) { j := OriginIn(init, tx); } else { j := |txs| - 1; }
  }

  lemma {:induction false} OriginOn(ch: seq<Block>, tx: Tx) returns (i: nat, j: nat)
    requires tx in ResubmittableOf(ch)
    ensures i < |ch| && j < |ch[i].txs| && ch[i].txs[j] == tx && IsTransfer(tx)
    decreases |ch|
  {
    var init := ch[..|ch| - 1];
    if tx in ResubmittableOf(init) {
      i, j := OriginOn(init, tx);
    } else {
      i := |ch| - 1;
      j := OriginIn(ch[i].txs, tx);
    }
  }

  predicate OccursAbove(losing: seq<Block>, n: nat, tx: Tx, i: nat, j: nat) {
    n <= i < |losing| && j < |losing[i].txs| && losing[i].txs[j] == tx
  }

  /** A transaction is a candidate exactly when it is a version 2 transfer in a block above the shared part. */
  lemma CandidateExactly(losing: seq<Block>, winning: seq<Block>, n: nat, tx: Tx)
    requires 0 < n && PartAt(losing, winning, n)
    ensures tx in LosingTransactions(losing, winning) <==> tx.version == 2 && tx.sender != COINBASE_SENDER && exists i, j :: OccursAbove(losing, n, tx, i, j)
  {
    CommonParts(losing, winning);
    PartUnique(losing, winning, n, CommonLength(losing, winning));
    if tx in LosingTransactions(losing, winning) {
      var i, j := OriginOn(losing[n..], tx);
      assert OccursAbove(losing, n, tx, n + i, j);
    }
    if IsTransfer(tx) {
      if i, j :| OccursAbove(losing, n, tx, i, j) { CandidatesAreTransfersAbove(losing, winning, n); }
    }
  }
}
