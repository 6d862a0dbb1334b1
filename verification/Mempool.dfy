/** The V2 mempool: pending nonces and reserved balances. (internal/mempool/v2.go) */
module Mempool {
  import opened Base
  import opened Protocol
  import opened Ledger
  import opened Conservation
  import Order

  type Pending = map<Text, Tx>

  // ---- what is pending -----------------------------------------------------

  /** The units an address has reserved. */
  ghost function Reserved(p: Pending, a: Text): nat
    decreases |p|
  {
    if p == map[] then 0
    else
      var k :| k in p;
      Share(p[k], a) + Reserved(p - {k}, a)
  }

  function Share(tx: Tx, a: Text): nat { if tx.sender == a then tx.amount else 0 }

  lemma {:induction false} ReservedSplit(p: Pending, k: Text, a: Text)
    requires k in p
    ensures Reserved(p, a) == Share(p[k], a) + Reserved(p - {k}, a)
    decreases |p|
  {
    var j :| j in p && Reserved(p, a) == Share(p[j], a) + Reserved(p - {j}, a);
    if j != k {
      ReservedSplit(p - {j}, k, a);
      ReservedSplit(p - {k}, j, a);
      assert p - {j} - {k} == p - {k} - {j};
    }
  }

  lemma ReservedAdd(p: Pending, tx: Tx, a: Text)
    requires tx.txId !in p
    ensures Reserved(p[tx.txId := tx], a) == Reserved(p, a) + Share(tx, a)
  {
    var q := p[tx.txId := tx];
    ReservedSplit(q, tx.txId, a);
    assert q - {tx.txId} == p;
  }

  /** Some pending transaction of the address carries this nonce. */
  ghost predicate HasNonce(p: Pending, a: Text, n: int) {
    exists k :: k in p && p[k].sender == a && p[k].nonce == n
  }

  // ---- the invariant -------------------------------------------------------

  predicate EntryOk(c: Crypto, networkId: Text, p: Pending, k: Text)
    requires k in p
  {
    p[k].txId == k && ValidV2(c, networkId, p[k]) && p[k].nonce != MAX64
  }

  /** Nonces start at the confirmed one and leave no gap. */
  ghost predicate NonceOk(p: Pending, acc: Accounts, k: Text)
    requires k in p
  {
    var tx := p[k];
    Nonce(acc, tx.sender) <= tx.nonce && (Nonce(acc, tx.sender) < tx.nonce ==> HasNonce(p, tx.sender, tx.nonce - 1))
  }

  predicate Apart(p: Pending, j: Text, k: Text)
    requires j in p && k in p
  {
    p[j].sender == p[k].sender && p[j].nonce == p[k].nonce ==> j == k
  }

  /** Each sender's pending nonces form a contiguous range from its confirmed nonce. */
  ghost predicate Contiguous(p: Pending, acc: Accounts) {
    && (forall k {:trigger NonceOk(p, acc, k)} :: k in p ==> NonceOk(p, acc, k))
    && (forall j, k {:trigger Apart(p, j, k)} :: j in p && k in p ==> Apart(p, j, k))
  }

  /** No sender has reserved more than its confirmed balance. */
  ghost predicate Covered(p: Pending, acc: Accounts) {
    forall a {:trigger Reserved(p, a)} :: Reserved(p, a) <= Balance(acc, a)
  }

  ghost predicate Entries(c: Crypto, networkId: Text, p: Pending) {
    forall k {:trigger EntryOk(c, networkId, p, k)} :: k in p ==> EntryOk(c, networkId, p, k)
  }

  /** The pool fits the ledger it was filled against. */
  ghost predicate PoolOk(c: Crypto, networkId: Text, p: Pending, acc: Accounts) {
    Entries(c, networkId, p) && Contiguous(p, acc) && Covered(p, acc)
  }

  /** What `Add` admits. */
  ghost predicate Admissible(c: Crypto, networkId: Text, p: Pending, max: nat, tx: Tx, expected: u64, balance: u64) {
    && ValidV2(c, networkId, tx)
    && tx.nonce == expected && tx.nonce != MAX64
    && tx.txId !in p && |p| < max
    && !HasNonce(p, tx.sender, tx.nonce)
    && Reserved(p, tx.sender) + tx.amount <= balance
  }

  /** `ExpectedNonce`: the first free nonce from the confirmed one on. */
  ghost predicate FirstFree(p: Pending, a: Text, from: u64, n: u64) {
    from <= n && !HasNonce(p, a, n) && forall m {:trigger HasNonce(p, a, m)} :: from <= m < n ==> HasNonce(p, a, m)
  }

  // ---- the pool ------------------------------------------------------------

  /** The two indexes name the same transactions. */
  predicate InById(p: Pending, index: map<Text, map<u64, Text>>, a: Text, n: u64)
    requires a in index && n in index[a]
  {
    index[a][n] in p && p[index[a][n]].sender == a && p[index[a][n]].nonce == n
  }

  predicate InByNonce(p: Pending, index: map<Text, map<u64, Text>>, k: Text)
    requires k in p
  {
    p[k].sender in index && p[k].nonce in index[p[k].sender] && index[p[k].sender][p[k].nonce] == k
  }

  ghost predicate Inverse(p: Pending, index: map<Text, map<u64, Text>>) {
    && (forall k {:trigger InByNonce(p, index, k)} :: k in p ==> p[k].txId == k && InByNonce(p, index, k))
    && (forall a, n {:trigger InById(p, index, a, n)} :: a in index && n in index[a] ==> InById(p, index, a, n))
  }

  lemma IndexedNonce(p: Pending, index: map<Text, map<u64, Text>>, a: Text, n: u64)
    requires Inverse(p, index)
    ensures HasNonce(p, a, n) <==> a in index && n in index[a]
  {
    if a in index && n in index[a] { assert InById(p, index, a, n); }
    if HasNonce(p, a, n) {
      var k :| k in p && p[k].sender == a && p[k].nonce == n;
      assert InByNonce(p, index, k);
    }
  }

  class V2Pool {
    const max: nat
    var byID: Pending
    var byNonce: map<Text, map<u64, Text>>

    ghost predicate Valid()
      reads this
    {
      Inverse(byID, byNonce)
    }

    constructor (max: int)
      ensures Valid() && byID == map[] && this.max == (if max < 1 then 1000 else max)
    {
      this.max := if max < 1 then 1000 else max;
      byID, byNonce := map[], map[];
    }

    method Add(c: Crypto, networkId: Text, tx: Tx, expected: u64, balance: u64) returns (ok: bool)
      requires Valid()
      modifies this
      ensures Valid()
      ensures ok == Admissible(c, networkId, old(byID), max, tx, expected, balance)
      ensures byID == if ok then old(byID)[tx.txId := tx] else old(byID)
    {
      if !ValidV2(c, networkId, tx) { return false; }
      if tx.nonce != expected { return false; }
      if tx.nonce == MAX64 { return false; }
      if tx.txId in byID { return false; }
      if |byID| >= max { return false; }
      if tx.sender !in byNonce {
        NewSender(byID, byNonce, tx.sender);
        var empty: map<u64, Text> := map[];
        byNonce := byNonce[tx.sender := empty];
      }
      IndexedNonce(byID, byNonce, tx.sender, tx.nonce);
      if tx.nonce in byNonce[tx.sender] { return false; }
      var pending := SumPending(tx.sender);
      if pending.None? || tx.amount > balance || pending.value > balance - tx.amount { return false; }
      NewEntry(byID, byNonce, tx);
      byID := byID[tx.txId := tx];
      byNonce := byNonce[tx.sender := WithNonce(byNonce[tx.sender], tx.nonce, tx.txId)];
      ok := true;
    }

    /** The reserved sum, unless it overflows 64 bits. */
    method SumPending(a: Text) returns (sum: Option<u64>)
      ensures sum == if Reserved(byID, a) <= MAX64 then Some(Reserved(byID, a)) else None
    {
      var todo, total := byID, 0;
      while todo != map[]
        invariant total + Reserved(todo, a) == Reserved(byID, a) && 0 <= total <= MAX64
        decreases |todo|
      {
        var k :| k in todo;
        ReservedSplit(todo, k, a);
        if todo[k].sender == a {
          if MAX64 - total < todo[k].amount { return None; }
          total := total + todo[k].amount;
        }
        todo := todo - {k};
      }
      sum := Some(total);
    }

    method ExpectedNonce(a: Text, confirmedNext: u64) returns (n: Option<u64>)
      requires Valid()
      ensures n.Some? ==> FirstFree(byID, a, confirmedNext, n.value)
      ensures n.None? ==> forall m {:trigger HasNonce(byID, a, m)} :: confirmedNext <= m <= MAX64 ==> HasNonce(byID, a, m)
    {
      var next := confirmedNext;
      while true
        invariant confirmedNext <= next <= MAX64
        invariant forall m {:trigger HasNonce(byID, a, m)} :: confirmedNext <= m < next ==> HasNonce(byID, a, m)
        decreases MAX64 - next
      {
        IndexedNonce(byID, byNonce, a, next);
        if a !in byNonce { return Some(next); }
        if next !in byNonce[a] { return Some(next); }
        if next == MAX64 { return None; }
        next := next + 1;
      }
    }

    method RemoveIDs(ids: seq<Text>)
      requires Valid()
      modifies this
      ensures Valid()
      ensures byID == old(byID) - (set k | k in ids)
    {
      for i := 0 to |ids|
        invariant Valid() && byID == old(byID) - (set k | k in ids[..i])
      {
        assert ids[..i + 1] == ids[..i] + [ids[i]];
        if ids[i] in byID { Remove(ids[i]); }
      }
      assert ids[..|ids|] == ids;
    }

    method Remove(k: Text)
      requires Valid() && k in byID
      modifies this
      ensures Valid() && byID == old(byID) - {k}
    {
      var tx := byID[k];
      assert InByNonce(byID, byNonce, k);
      var m := byNonce[tx.sender] - {tx.nonce};
      Unindexed(byID, byNonce, k);
      byID := byID - {k};
      byNonce := if m == map[] then byNonce - {tx.sender} else byNonce[tx.sender := m];
    }

    lemma AllNamed()
      requires Valid()
      ensures forall k :: k in byID ==> byID[k].txId == k
    {
      forall k | k in byID
        ensures byID[k].txId == k
      {
        assert InByNonce(byID, byNonce, k);
      }
    }

    /** Ordered by sender, then nonce, then identity. */
    method List(limit: nat) returns (out: seq<Tx>)
      requires Valid()
      ensures Listed(out) && Drawn(byID, out) && |out| == (if 0 < limit < |byID| then limit else |byID|)
    {
      AllNamed();
      out := Gather(byID);
      out := SortListing(byID, out);
      if limit > 0 && |out| > limit {
        DrawnPrefix(byID, out, limit);
        ListedPrefix(out, limit);
        out := out[..limit];
      }
    }
  }

  /** Ranges over the identity map, in no particular order. */
  method Gather(p: Pending) returns (out: seq<Tx>)
    requires forall k :: k in p ==> p[k].txId == k
    ensures Drawn(p, out) && |out| == |p|
  {
    var todo := p;
    out := [];
    while todo != map[]
      invariant todo.Keys <= p.Keys && (forall k :: k in todo ==> todo[k] == p[k])
      invariant Drawn(p - todo.Keys, out) && |out| + |todo| == |p|
      decreases |todo|
    {
      var k :| k in todo;
      var rest := todo - {k};
      assert p - rest.Keys - {k} == p - todo.Keys;
      out := [todo[k]] + out;
      todo := rest;
    }
    assert p - todo.Keys == p;
  }

  /** `sort.Slice` on the listing. */
  method SortListing(ghost p: Pending, xs: seq<Tx>) returns (out: seq<Tx>)
    requires Drawn(p, xs)
    ensures out == Sort(Before, xs) && Listed(out) && Drawn(p, out) && |out| == |xs|
  {
    out := Sort(Before, xs);
    SortDraws(Before, p, xs);
    SortLists(xs);
  }

  lemma NewSender(p: Pending, index: map<Text, map<u64, Text>>, a: Text)
    requires Inverse(p, index) && a !in index
    ensures var empty: map<u64, Text> := map[]; Inverse(p, index[a := empty])
  {
    var empty: map<u64, Text> := map[];
    var grown := index[a := empty];
    forall k | k in p
      ensures p[k].txId == k && InByNonce(p, grown, k)
    {
      assert InByNonce(p, index, k);
    }
    forall b, n | b in grown && n in grown[b]
      ensures InById(p, grown, b, n)
    {
      assert InById(p, index, b, n);
    }
  }

  function WithNonce(m: map<u64, Text>, n: u64, k: Text): map<u64, Text> { m[n := k] }

  lemma NewEntry(p: Pending, index: map<Text, map<u64, Text>>, tx: Tx)
    requires Inverse(p, index) && tx.txId !in p && tx.sender in index && tx.nonce !in index[tx.sender]
    ensures Inverse(p[tx.txId := tx], index[tx.sender := WithNonce(index[tx.sender], tx.nonce, tx.txId)])
  {
    var q, grown := p[tx.txId := tx], index[tx.sender := WithNonce(index[tx.sender], tx.nonce, tx.txId)];
    forall k | k in q
      ensures q[k].txId == k && InByNonce(q, grown, k)
    {
      if k != tx.txId { assert InByNonce(p, index, k); }
    }
    forall b, n | b in grown && n in grown[b]
      ensures InById(q, grown, b, n)
    {
      if b != tx.sender || n != tx.nonce { assert InById(p, index, b, n); }
    }
  }

  lemma Unindexed(p: Pending, index: map<Text, map<u64, Text>>, k: Text)
    requires Inverse(p, index) && k in p && InByNonce(p, index, k)
    ensures var m := index[p[k].sender] - {p[k].nonce};
            Inverse(p - {k}, if m == map[] then index - {p[k].sender} else index[p[k].sender := m])
  {
    var tx := p[k];
    var m := index[tx.sender] - {tx.nonce};
    var q, rest := p - {k}, if m == map[] then index - {tx.sender} else index[tx.sender := m];
    forall j | j in q
      ensures q[j].txId == j && InByNonce(q, rest, j)
    {
      assert InByNonce(p, index, j);
      if q[j].sender == tx.sender { assert q[j].nonce in m; }
    }
    forall b, n | b in rest && n in rest[b]
      ensures InById(q, rest, b, n)
    {
      assert InById(p, index, b, n);
    }
  }

  // ---- lists drawn from the pool -------------------------------------------

  /** Transactions taken from the pool one after the other, none twice. */
  ghost predicate Drawn(p: Pending, xs: seq<Tx>)
    decreases |xs|
  {
    xs == [] || (xs[0].txId in p && p[xs[0].txId] == xs[0] && Drawn(p - {xs[0].txId}, xs[1..]))
  }

  type Less = (Tx, Tx) -> bool

  function Insert(less: Less, t: Tx, xs: seq<Tx>): (r: seq<Tx>)
    ensures |r| == |xs| + 1
    decreases |xs|
  {
    if xs == [] || less(t, xs[0]) then [t] + xs else [xs[0]] + Insert(less, t, xs[1..])
  }

  /** What `sort.Slice` leaves behind. */
  function Sort(less: Less, xs: seq<Tx>): (r: seq<Tx>)
    ensures |r| == |xs|
    decreases |xs|
  {
    if xs == [] then [] else Insert(less, xs[0], Sort(less, xs[1..]))
  }

  lemma {:induction false} InsertDraws(less: Less, p: Pending, t: Tx, xs: seq<Tx>)
    requires t.txId in p && p[t.txId] == t && Drawn(p - {t.txId}, xs)
    ensures Drawn(p, Insert(less, t, xs))
    decreases |xs|
  {
    if xs == [] || less(t, xs[0]) {
      HeadTail(t, xs);
    } else {
      var h := xs[0];
      assert p - {t.txId} - {h.txId} == p - {h.txId} - {t.txId};
      InsertDraws(less, p - {h.txId}, t, xs[1..]);
      HeadTail(h, Insert(less, t, xs[1..]));
    }
  }

  lemma {:induction false} SortDraws(less: Less, p: Pending, xs: seq<Tx>)
    requires Drawn(p, xs)
    ensures Drawn(p, Sort(less, xs))
    decreases |xs|
  {
    if xs != [] {
      SortDraws(less, p - {xs[0].txId}, xs[1..]);
      InsertDraws(less, p, xs[0], Sort(less, xs[1..]));
    }
  }

  lemma {:induction false} DrawnPrefix(p: Pending, xs: seq<Tx>, n: nat)
    requires Drawn(p, xs) && n <= |xs|
    ensures Drawn(p, xs[..n])
    decreases |xs|
  {
    if n > 0 {
      DrawnPrefix(p - {xs[0].txId}, xs[1..], n - 1);
      assert xs[..n][1..] == xs[1..][..n - 1];
    }
  }

  // ---- listing order -------------------------------------------------------

  predicate Before(t: Tx, u: Tx) {
    if t.sender == u.sender then
      if t.nonce == u.nonce then Order.LexLess(t.txId, u.txId) else t.nonce < u.nonce
    else Order.LexLess(t.sender, u.sender)
  }

  /** Nothing stands before what precedes it. */
  predicate Listed(xs: seq<Tx>)
    decreases |xs|
  {
    xs == [] || (NoneBefore(xs[1..], xs[0]) && Listed(xs[1..]))
  }

  predicate NoneBefore(xs: seq<Tx>, t: Tx) {
    forall i :: 0 <= i < |xs| ==> !Before(xs[i], t)
  }

  /** A listing is ordered by sender, then nonce, then identity. */
  lemma {:induction false} ListedMeans(xs: seq<Tx>, i: nat, j: nat)
    requires Listed(xs) && i < j < |xs|
    ensures !Order.LexLess(xs[j].sender, xs[i].sender)
    ensures xs[j].sender == xs[i].sender ==> xs[i].nonce <= xs[j].nonce
    ensures xs[j].sender == xs[i].sender && xs[i].nonce == xs[j].nonce ==> !Order.LexLess(xs[j].txId, xs[i].txId)
    decreases |xs|
  {
    if i == 0 {
      assert xs[1..][j - 1] == xs[j];
      Order.LexAsymmetric(xs[j].sender, xs[i].sender);
    } else {
      ListedMeans(xs[1..], i - 1, j - 1);
    }
  }

  lemma {:induction false} ListedPrefix(xs: seq<Tx>, n: nat)
    requires Listed(xs) && n <= |xs|
    ensures Listed(xs[..n])
    decreases |xs|
  {
    if n > 0 {
      ListedPrefix(xs[1..], n - 1);
      assert xs[..n][1..] == xs[1..][..n - 1];
    }
  }

  lemma BeforeTransitive(t: Tx, u: Tx, v: Tx)
    requires Before(t, u) && Before(u, v)
    ensures Before(t, v)
  {
    if t.sender == u.sender == v.sender {
      if t.nonce == u.nonce == v.nonce { Order.LexTransitive(t.txId, u.txId, v.txId); }
    } else if t.sender != u.sender && u.sender != v.sender {
      Order.LexTransitive(t.sender, u.sender, v.sender);
      Order.LexAsymmetric(t.sender, u.sender);
    }
  }

  lemma {:induction false} InsertNoneBefore(t: Tx, xs: seq<Tx>, h: Tx)
    requires NoneBefore(xs, h) && !Before(t, h)
    ensures NoneBefore(Insert(Before, t, xs), h)
    decreases |xs|
  {
    if xs != [] && !Before(t, xs[0]) {
      var tail := xs[1..];
      assert forall i :: 0 <= i < |tail| ==> tail[i] == xs[i + 1];
      InsertNoneBefore(t, tail, h);
    }
  }

  lemma NotBefore(t: Tx, u: Tx, h: Tx)
    requires Before(t, h) && !Before(u, h)
    ensures !Before(u, t)
  {
    if Before(u, t) { BeforeTransitive(u, t, h); }
  }

  lemma {:induction false} InsertLists(t: Tx, xs: seq<Tx>)
    requires Listed(xs)
    ensures Listed(Insert(Before, t, xs))
    decreases |xs|
  {
    if xs == [] {
      assert [t][1..] == [];
    } else if Before(t, xs[0]) {
      HeadTail(t, xs);
      forall i | 0 <= i < |xs|
        ensures !Before(xs[i], t)
      {
        if i == 0 { BeforeIrreflexive(xs[0]); } else { assert xs[i] == xs[1..][i - 1]; }
        NotBefore(t, xs[i], xs[0]);
      }
    } else {
      InsertLists(t, xs[1..]);
      InsertNoneBefore(t, xs[1..], xs[0]);
      HeadTail(xs[0], Insert(Before, t, xs[1..]));
    }
  }

  lemma BeforeIrreflexive(t: Tx)
    ensures !Before(t, t)
  {
    Order.LexAsymmetric(t.txId, t.txId);
  }

  lemma {:induction false} SortLists(xs: seq<Tx>)
    ensures Listed(Sort(Before, xs))
    decreases |xs|
  {
    if xs != [] {
      SortLists(xs[1..]);
      InsertLists(xs[0], Sort(Before, xs[1..]));
    }
  }
}
