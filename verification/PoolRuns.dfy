/** What a version 2 pool holds after any run of its operations. (internal/mempool/v2.go) */
module PoolRuns {
  import opened Base
  import opened Protocol
  import opened Ledger
  import opened Mempool
  import opened NextBlock
  import opened Completeness

  datatype Op = Add(tx: Tx, expected: u64, balance: u64) | RemoveIDs(ids: seq<Text>)

  ghost function After(env: Env, max: nat, p: Pending, op: Op): Pending {
    match op
    case Add(tx, expected, balance) =>
      if Admissible(env.crypto, env.networkId, p, max, tx, expected, balance) then p[tx.txId := tx] else p
    case RemoveIDs(ids) => p - (set k | k in ids)
  }

  ghost function AfterAll(env: Env, max: nat, ops: seq<Op>): Pending {
    if ops == [] then map[] else After(env, max, AfterAll(env, max, ops[..|ops| - 1]), ops[|ops| - 1])
  }

  /** The object performs the operations of such a run. */
  method Perform(env: Env, pool: V2Pool, op: Op)
    requires pool.Valid()
    modifies pool
    ensures pool.Valid() && pool.byID == After(env, pool.max, old(pool.byID), op)
  {
    match op
    case Add(tx, expected, balance) =>
      var ok := pool.Add(env.crypto, env.networkId, tx, expected, balance);
    case RemoveIDs(ids) =>
      pool.RemoveIDs(ids);
  }

  /** What an address has in the pool, by a sum over a listing of it. */
  function Pledged(txs: seq<Tx>, a: Text): nat {
    if txs == [] then 0 else Pledged(txs[1..], a) + (if txs[0].sender == a then txs[0].amount else 0)
  }

  /** The reserved units are the sum over any listing of the whole pool. */
  lemma {:induction false} ReservedIsPledged(p: Pending, listing: seq<Tx>, a: Text)
    requires Drawn(p, listing) && |listing| == |p|
    ensures Reserved(p, a) == Pledged(listing, a)
    decreases |listing|
  {
    if listing != [] {
      var k := listing[0].txId;
      ReservedSplit(p, k, a);
      assert (p - {k}).Keys == p.Keys - {k};
      assert |p - {k}| == |p| - 1;
      ReservedIsPledged(p - {k}, listing[1..], a);
    }
  }

  /** Nothing listed has the identity, or the sender and the nonce. */
  predicate Unlisted(listing: seq<Tx>, tx: Tx) {
    forall u :: u in listing ==> u.txId != tx.txId && (u.sender == tx.sender ==> u.nonce != tx.nonce)
  }

  lemma UnlistedIsNew(p: Pending, listing: seq<Tx>, tx: Tx)
    requires Drawn(p, listing) && |listing| == |p| && forall k :: k in p ==> p[k].txId == k
    ensures Unlisted(listing, tx) <==> tx.txId !in p && !HasNonce(p, tx.sender, tx.nonce)
  {
    forall u | u in listing
      ensures u.txId in p && p[u.txId] == u
    {
      ListedIsPending(p, listing, u);
    }
    forall k | k in p
      ensures p[k] in listing
    {
      WholeDraw(p, listing, k);
    }
  }

  /** What `Add` admits: a lawful new transfer with the expected nonce whose amount the balance covers with all the sender has pending. */
  lemma AdmissionLaw(env: Env, max: nat, p: Pending, listing: seq<Tx>, tx: Tx, expected: u64, balance: u64)
    requires ValidEnv(env) && env.version == 2
    requires Drawn(p, listing) && |listing| == |p| && forall k :: k in p ==> p[k].txId == k
    ensures Admissible(env.crypto, env.networkId, p, max, tx, expected, balance) <==>
            && tx.sender != COINBASE_SENDER && Labelled(env, tx) && LawfulTransfer(env, tx)
            && tx.nonce == expected < MAX64 && |listing| < max && Unlisted(listing, tx)
            && Pledged(listing, tx.sender) + tx.amount <= balance
  {
    TxLaw(env, tx);
    ReservedIsPledged(p, listing, tx.sender);
    UnlistedIsNew(p, listing, tx);
  }

  lemma {:induction false} ListedIsPending(p: Pending, listing: seq<Tx>, u: Tx)
    requires Drawn(p, listing) && u in listing
    ensures u.txId in p && p[u.txId] == u
    decreases |listing|
  {
    if u != listing[0] {
      var i :| 0 <= i < |listing| && listing[i] == u;
      assert listing[1..][i - 1] == u;
      ListedIsPending(p - {listing[0].txId}, listing[1..], u);
    }
  }

  /** Every pending transaction was signed for the address it takes from, and the pool never exceeds its capacity. */
  lemma {:induction false} PendingIsAuthorised(env: Env, max: nat, ops: seq<Op>, k: Text)
    requires ValidEnv(env) && env.version == 2
    ensures |AfterAll(env, max, ops)| <= max
    ensures k in AfterAll(env, max, ops) ==>
              var tx := AfterAll(env, max, ops)[k];
              && tx.txId == k && tx.sender != COINBASE_SENDER && Labelled(env, tx) && LawfulTransfer(env, tx) && tx.nonce < MAX64
    decreases |ops|
  {
    if ops != [] {
      var p, op := AfterAll(env, max, ops[..|ops| - 1]), ops[|ops| - 1];
      PendingIsAuthorised(env, max, ops[..|ops| - 1], k);
      match op
      case Add(tx, expected, balance) =>
        TxLaw(env, tx);
        SizeAfterAdd(p, tx);
      case RemoveIDs(ids) => SizeAfterRemove(p, set x | x in ids);
    }
  }

  lemma SizeAfterAdd(p: Pending, tx: Tx)
    ensures |p[tx.txId := tx]| <= |p| + 1
  {
    assert p[tx.txId := tx].Keys == p.Keys + {tx.txId};
    assert |p| == |p.Keys|;
  }

  lemma SizeAfterRemove(p: Pending, ids: set<Text>)
    ensures |p - ids| <= |p|
  {
    assert (p - ids).Keys == p.Keys - ids;
    assert |p| == |p.Keys| && |p - ids| == |(p - ids).Keys|;
  }
}
