/** The miner leaves nothing behind: which pending transactions a selection holds, and in which order. (internal/node/node.go) */
module Completeness {
  import opened Base
  import opened Protocol
  import opened Retarget
  import opened Ledger
  import opened Equivalence
  import opened Tree
  import opened Mempool
  import opened Selection
  import opened Drain
  import opened Template
  import opened LocalNode
  import opened Clashes
  import Order

  // ---- a sender's transactions in nonce order ------------------------------------

  predicate AtLeast(xs: seq<Tx>, n: int) { forall u :: u in xs ==> n <= u.nonce }

  predicate Above(xs: seq<Tx>, n: int) { forall u :: u in xs ==> n < u.nonce }

  predicate NonceSorted(xs: seq<Tx>)
    decreases |xs|
  {
    xs == [] || (AtLeast(xs[1..], xs[0].nonce) && NonceSorted(xs[1..]))
  }

  /** Nonces strictly rise. */
  predicate Climbs(xs: seq<Tx>)
    decreases |xs|
  {
    xs == [] || (Above(xs[1..], xs[0].nonce) && Climbs(xs[1..]))
  }

  lemma InCons(xs: seq<Tx>, u: Tx)
    requires xs != []
    ensures u in xs <==> u == xs[0] || u in xs[1..]
  {
    if u in xs {
      var i :| 0 <= i < |xs| && xs[i] == u;
      if i > 0 { assert xs[1..][i - 1] == u; }
    }
  }

  lemma {:induction false} InInsert(less: Less, t: Tx, xs: seq<Tx>, u: Tx)
    ensures u in Insert(less, t, xs) <==> u == t || u in xs
    decreases |xs|
  {
    if xs != [] && !less(t, xs[0]) {
      InInsert(less, t, xs[1..], u);
      InCons(xs, u);
    }
  }

  lemma {:induction false} InSort(less: Less, xs: seq<Tx>, u: Tx)
    ensures u in Sort(less, xs) <==> u in xs
    decreases |xs|
  {
    if xs != [] {
      InSort(less, xs[1..], u);
      InInsert(less, xs[0], Sort(less, xs[1..]), u);
      InCons(xs, u);
    }
  }

  lemma {:induction false} InGroup(txs: seq<Tx>, a: Text, u: Tx)
    ensures u in Group(txs, a) <==> u in txs && u.version == 2 && u.sender != COINBASE_SENDER && u.sender == a
    decreases |txs|
  {
    if txs != [] {
      InGroup(txs[1..], a, u);
      InCons(txs, u);
    }
  }

  lemma {:induction false} InsertSorts(t: Tx, xs: seq<Tx>)
    requires NonceSorted(xs)
    ensures NonceSorted(Insert(ByNonce, t, xs))
    decreases |xs|
  {
    if xs == [] {
      assert [t][1..] == [];
    } else if t.nonce < xs[0].nonce {
      HeadTail(t, xs);
      forall u | u in xs
        ensures t.nonce <= u.nonce
      {
        InCons(xs, u);
      }
    } else {
      InsertSorts(t, xs[1..]);
      HeadTail(xs[0], Insert(ByNonce, t, xs[1..]));
      forall u | u in Insert(ByNonce, t, xs[1..])
        ensures xs[0].nonce <= u.nonce
      {
        InInsert(ByNonce, t, xs[1..], u);
      }
    }
  }

  lemma {:induction false} SortSorts(xs: seq<Tx>)
    ensures NonceSorted(Sort(ByNonce, xs))
    decreases |xs|
  {
    if xs != [] {
      SortSorts(xs[1..]);
      InsertSorts(xs[0], Sort(ByNonce, xs[1..]));
    }
  }

  /** All pending transactions are one sender's, no two with one nonce. */
  ghost predicate OneSender(p: Pending, a: Text) {
    && (forall k :: k in p ==> p[k].sender == a)
    && (forall j, k {:trigger Apart(p, j, k)} :: j in p && k in p ==> Apart(p, j, k))
  }

  lemma OneSenderLess(p: Pending, a: Text, x: Text)
    requires OneSender(p, a)
    ensures OneSender(p - {x}, a)
  {
    var q := p - {x};
    forall j, k | j in q && k in q
      ensures Apart(q, j, k)
    {
      assert Apart(p, j, k);
    }
  }

  lemma {:induction false} SortedClimbs(p: Pending, a: Text, xs: seq<Tx>)
    requires NonceSorted(xs) && Drawn(p, xs) && OneSender(p, a)
    ensures Climbs(xs)
    decreases |xs|
  {
    if xs != [] {
      var t, rest := xs[0], xs[1..];
      forall u | u in rest
        ensures t.nonce < u.nonce
      {
        var i :| 0 <= i < |rest| && rest[i] == u;
        DrawnAre(p - {t.txId}, rest, i);
        assert Apart(p, t.txId, u.txId);
      }
      OneSenderLess(p, a, t.txId);
      SortedClimbs(p - {t.txId}, a, rest);
    }
  }

  // ---- which of them are taken ---------------------------------------------------

  ghost predicate HasAt(xs: seq<Tx>, n: int) { exists u :: u in xs && u.nonce == n }

  /** Every nonce from `lo` to `hi` is there. */
  ghost predicate HasAll(xs: seq<Tx>, lo: int, hi: int) {
    forall n {:trigger HasAt(xs, n)} :: lo <= n <= hi ==> HasAt(xs, n)
  }

  lemma HasAllTail(xs: seq<Tx>, lo: int, hi: int)
    requires xs != [] && xs[0].nonce == lo
    ensures HasAll(xs, lo, hi) ==> HasAll(xs[1..], lo + 1, hi)
    ensures HasAll(xs[1..], lo + 1, hi) ==> HasAll(xs, lo, hi)
  {
    forall n | lo < n <= hi
      ensures HasAt(xs, n) <==> HasAt(xs[1..], n)
    {
      if HasAt(xs, n) {
        var u :| u in xs && u.nonce == n;
        InCons(xs, u);
      }
    }
    assert xs[0] in xs;
    assert HasAt(xs, lo);
    if HasAll(xs, lo, hi) {
      forall n | lo + 1 <= n <= hi
        ensures HasAt(xs[1..], n)
      {
        assert HasAt(xs, n);
      }
    }
    if HasAll(xs[1..], lo + 1, hi) {
      forall n | lo <= n <= hi
        ensures HasAt(xs, n)
      {
        if n > lo { assert HasAt(xs[1..], n); }
      }
    }
  }

  lemma {:induction false} TakenExactly(arr: seq<Tx>, expected: u64, t: Tx)
    requires Climbs(arr) && AtLeast(arr, expected) && forall u :: u in arr ==> u.nonce != MAX64
    ensures t in TakeRun(arr, expected) <==> t in arr && HasAll(arr, expected, t.nonce)
    decreases |arr|
  {
    if arr != [] {
      assert arr[0] in arr;
      InCons(arr, t);
      if arr[0].nonce != expected {
        NoneAt(arr, expected);
        if t in arr { assert !HasAt(arr, expected); }
      } else {
        forall u | u in arr[1..]
          ensures expected + 1 <= u.nonce && u.nonce != MAX64
        {
          InCons(arr, u);
        }
        TakenExactly(arr[1..], expected + 1, t);
        HasAllTail(arr, expected, t.nonce);
        TakenHead(arr, expected, t);
      }
    }
  }

  lemma NoneAt(arr: seq<Tx>, n: int)
    requires arr != [] && Climbs(arr) && AtLeast(arr, n) && arr[0].nonce != n
    ensures !HasAt(arr, n)
  {
    assert arr[0] in arr;
    forall u | u in arr
      ensures u.nonce != n
    {
      InCons(arr, u);
    }
  }

  lemma TakenHead(arr: seq<Tx>, expected: u64, t: Tx)
    requires arr != [] && arr[0].nonce == expected && expected != MAX64
    ensures t in TakeRun(arr, expected) <==> t == arr[0] || t in TakeRun(arr[1..], expected + 1)
    ensures t == arr[0] ==> HasAll(arr, expected, t.nonce)
  {
    InCons(TakeRun(arr, expected), t);
    HeadTail(arr[0], TakeRun(arr[1..], expected + 1));
    assert arr[0] in arr;
    if t == arr[0] { assert HasAt(arr, expected); }
  }

  // ---- the whole selection -------------------------------------------------------

  lemma {:induction false} InSelectFrom(acc: Accounts, txs: seq<Tx>, senders: seq<Text>, t: Tx)
    ensures t in SelectFrom(acc, txs, senders) <==> exists a :: a in senders && t in RunOf(acc, txs, a)
    decreases |senders|
  {
    if senders != [] {
      InSelectFrom(acc, txs, senders[1..], t);
      if a :| a in senders && t in RunOf(acc, txs, a) {
        var i :| 0 <= i < |senders| && senders[i] == a;
        if i > 0 { assert senders[1..][i - 1] == a; }
      }
      if t in RunOf(acc, txs, senders[0]) { assert senders[0] in senders; }
      if a :| a in senders[1..] && t in RunOf(acc, txs, a) { assert a in senders; }
    }
  }

  lemma TakenAreThere(arr: seq<Tx>, expected: u64, t: Tx)
    requires t in TakeRun(arr, expected)
    ensures t in arr
  {
    var n := TakeRunPrefix(arr, expected);
  }

  /** A listed transaction holds all its sender's nonces from the confirmed one up to its own. */
  ghost predicate Complete(acc: Accounts, listing: seq<Tx>, t: Tx) {
    forall n: int {:trigger Listing(listing, t.sender, n)} ::
      Nonce(acc, t.sender) <= n <= t.nonce ==> Listing(listing, t.sender, n)
  }

  ghost predicate Listing(listing: seq<Tx>, a: Text, n: int) { exists u :: u in listing && u.sender == a && u.nonce == n }

  predicate AllTransfers(listing: seq<Tx>) {
    forall u :: u in listing ==> u.version == 2 && u.sender != COINBASE_SENDER
  }

  lemma GroupHas(listing: seq<Tx>, a: Text, arr: seq<Tx>, n: int)
    requires AllTransfers(listing) && arr == Sort(ByNonce, Group(listing, a))
    ensures HasAt(arr, n) <==> Listing(listing, a, n)
  {
    if HasAt(arr, n) {
      var u :| u in arr && u.nonce == n;
      InSort(ByNonce, Group(listing, a), u);
      InGroup(listing, a, u);
    }
    if Listing(listing, a, n) {
      var u :| u in listing && u.sender == a && u.nonce == n;
      InGroup(listing, a, u);
      InSort(ByNonce, Group(listing, a), u);
    }
  }

  lemma CompleteIsHasAll(acc: Accounts, listing: seq<Tx>, t: Tx, arr: seq<Tx>)
    requires AllTransfers(listing) && arr == Sort(ByNonce, Group(listing, t.sender))
    ensures HasAll(arr, Nonce(acc, t.sender), t.nonce) <==> Complete(acc, listing, t)
  {
    forall n: int
      ensures HasAt(arr, n) <==> Listing(listing, t.sender, n)
    {
      GroupHas(listing, t.sender, arr, n);
    }
  }

  lemma PoolListing(c: Crypto, networkId: Text, p: Pending, acc: Accounts, listing: seq<Tx>)
    requires PoolOk(c, networkId, p, acc) && Drawn(p, listing)
    ensures AllTransfers(listing)
    ensures forall u :: u in listing ==> u.txId in p && p[u.txId] == u && Nonce(acc, u.sender) <= u.nonce && u.nonce != MAX64
  {
    forall u | u in listing
      ensures u.version == 2 && u.sender != COINBASE_SENDER
      ensures u.txId in p && p[u.txId] == u && Nonce(acc, u.sender) <= u.nonce && u.nonce != MAX64
    {
      var i :| 0 <= i < |listing| && listing[i] == u;
      DrawnAre(p, listing, i);
      assert EntryOk(c, networkId, p, u.txId) && NonceOk(p, acc, u.txId);
    }
  }

  lemma SenderPool(c: Crypto, networkId: Text, p: Pending, acc: Accounts, a: Text)
    requires PoolOk(c, networkId, p, acc)
    ensures OneSender(OfSender(p, a), a)
  {
    var q := OfSender(p, a);
    forall j, k | j in q && k in q
      ensures Apart(q, j, k)
    {
      assert Apart(p, j, k);
    }
  }

  /** One sender's run: exactly its transactions without a gap below them. */
  lemma RunExactly(c: Crypto, networkId: Text, p: Pending, acc: Accounts, listing: seq<Tx>, t: Tx)
    requires PoolOk(c, networkId, p, acc) && Drawn(p, listing)
    ensures t in RunOf(acc, listing, t.sender) <==> t in listing && Complete(acc, listing, t)
  {
    var a := t.sender;
    var group := Group(listing, a);
    var arr := Sort(ByNonce, group);
    PoolListing(c, networkId, p, acc, listing);
    GroupDraws(p, listing, a);
    SortDraws(ByNonce, OfSender(p, a), group);
    SortSorts(group);
    SenderPool(c, networkId, p, acc, a);
    SortedClimbs(OfSender(p, a), a, arr);
    forall u | u in arr
      ensures u in listing && u.sender == a && Nonce(acc, a) <= u.nonce && u.nonce != MAX64
    {
      InSort(ByNonce, group, u);
      InGroup(listing, a, u);
    }
    TakenExactly(arr, Nonce(acc, a), t);
    CompleteIsHasAll(acc, listing, t, arr);
    InSort(ByNonce, group, t);
    InGroup(listing, a, t);
  }

  /** From a fitting pool a listed transaction is selected exactly when no nonce below its own is missing. */
  lemma SelectedExactly(c: Crypto, networkId: Text, p: Pending, acc: Accounts, listing: seq<Tx>, t: Tx)
    requires PoolOk(c, networkId, p, acc) && Drawn(p, listing)
    ensures t in Select(acc, listing) <==> t in listing && Complete(acc, listing, t)
  {
    var senders := Order.Ascending(Senders(listing));
    InSelectFrom(acc, listing, senders, t);
    RunExactly(c, networkId, p, acc, listing, t);
    PoolListing(c, networkId, p, acc, listing);
    if t in listing {
      var i :| 0 <= i < |listing| && listing[i] == t;
      assert Selectable(listing[i]) && t.sender in Senders(listing);
    }
    if a :| a in senders && t in RunOf(acc, listing, a) { RunIsSenders(acc, listing, a, t); }
  }

  lemma RunIsSenders(acc: Accounts, listing: seq<Tx>, a: Text, t: Tx)
    requires t in RunOf(acc, listing, a)
    ensures t.sender == a
  {
    var group := Group(listing, a);
    TakenAreThere(Sort(ByNonce, group), Nonce(acc, a), t);
    InSort(ByNonce, group, t);
    InGroup(listing, a, t);
  }

  // ---- a whole pool --------------------------------------------------------------

  lemma {:induction false} WholeDraw(p: Pending, xs: seq<Tx>, k: Text)
    requires Drawn(p, xs) && |xs| == |p| && k in p
    ensures p[k] in xs
    decreases |xs|
  {
    var t := xs[0];
    InCons(xs, p[k]);
    if t.txId != k {
      assert (p - {t.txId}).Keys == p.Keys - {t.txId};
      assert |p - {t.txId}| == |p| - 1;
      WholeDraw(p - {t.txId}, xs[1..], k);
    }
  }

  /** Down from a pending nonce every nonce to the confirmed one is pending. */
  lemma {:induction false} PendingBelow(p: Pending, acc: Accounts, a: Text, n: int, m: int)
    requires Contiguous(p, acc) && HasNonce(p, a, n) && Nonce(acc, a) <= m <= n
    ensures HasNonce(p, a, m)
    decreases n - m
  {
    if m < n {
      var k :| k in p && p[k].sender == a && p[k].nonce == n;
      assert NonceOk(p, acc, k);
      PendingBelow(p, acc, a, n - 1, m);
    }
  }

  /** From a listing of the whole pool everything pending is selected. */
  lemma EverythingSelected(c: Crypto, networkId: Text, p: Pending, acc: Accounts, listing: seq<Tx>)
    requires PoolOk(c, networkId, p, acc) && Drawn(p, listing) && |listing| == |p|
    ensures IdsOf(Select(acc, listing)) == p.Keys
  {
    forall k | k in p
      ensures k in IdsOf(Select(acc, listing))
    {
      PendingIsSelected(c, networkId, p, acc, listing, k);
    }
    SelectionDrawn(p, acc, listing);
    forall k | k in IdsOf(Select(acc, listing))
      ensures k in p
    {
      var i :| 0 <= i < |Select(acc, listing)| && Select(acc, listing)[i].txId == k;
      DrawnAre(p, Select(acc, listing), i);
    }
  }

  lemma PendingIsSelected(c: Crypto, networkId: Text, p: Pending, acc: Accounts, listing: seq<Tx>, k: Text)
    requires PoolOk(c, networkId, p, acc) && Drawn(p, listing) && |listing| == |p| && k in p
    ensures k in IdsOf(Select(acc, listing))
  {
    var t := p[k];
    WholeDraw(p, listing, k);
    forall n: int | Nonce(acc, t.sender) <= n <= t.nonce
      ensures Listing(listing, t.sender, n)
    {
      PendingBelow(p, acc, t.sender, t.nonce, n);
      var j :| j in p && p[j].sender == t.sender && p[j].nonce == n;
      WholeDraw(p, listing, j);
    }
    SelectedExactly(c, networkId, p, acc, listing, t);
    assert EntryOk(c, networkId, p, k);
    var i :| 0 <= i < |Select(acc, listing)| && Select(acc, listing)[i] == t;
  }

  /** After a block was mined from the whole pool the pool is empty, or two inputs with one hash are at hand. */
  lemma MiningEmptiesPool(env: Env, lim: Limits, l: Local, receiver: Text, listing: seq<Tx>, now: int, b: Block) returns (e: Option<Clash>)
    requires ValidEnv(env) && env.version == 2 && LocalOk(env, l) && Drawn(l.pool, listing) && |listing| == |l.pool|
    requires Mined(env, l.node.active, LedgerOf(env, l.node.active).value, receiver, listing, b).Some?
    requires lim.blockFits(b) && CheckpointFits(env, lim, l.node.active + [b])
    ensures e.Some? ==> Real(env.crypto, e.value)
    ensures e.None? ==> l.pool - ChainIds(Accept(env, lim, l.node, now, b).1.active) == map[]
  {
    e := CleanOrClash(env, l, receiver, listing, b);
    if e.None? {
      CleanIsBest(env, lim, l, receiver, listing, now, b);
      CleanEmptiesPool(env, l, receiver, listing, b);
    }
  }

  lemma CleanEmptiesPool(env: Env, l: Local, receiver: Text, listing: seq<Tx>, b: Block)
    requires LocalOk(env, l) && Drawn(l.pool, listing) && |listing| == |l.pool| && Clean(env, l, receiver, listing, b)
    ensures l.pool - ChainIds(l.node.active + [b]) == map[]
  {
    var s := LedgerOf(env, l.node.active).value;
    AllSelected(env, s, l.pool, listing);
    PoolAfter(env, l, receiver, Select(s.accounts, listing), b);
  }

  lemma AllSelected(env: Env, s: State, p: Pending, listing: seq<Tx>)
    requires PoolOk(env.crypto, env.networkId, p, s.accounts) && Drawn(p, listing) && |listing| == |p|
    ensures p - IdsOf(Select(s.accounts, listing)) == map[] && Pendings(env.crypto, env.networkId, Select(s.accounts, listing))
  {
    SelectionFits(env, s, p, listing);
    EverythingSelected(env.crypto, env.networkId, p, s.accounts, listing);
  }

  // ---- the order of a selection --------------------------------------------------

  predicate Ahead(t: Tx, u: Tx) {
    if t.sender == u.sender then t.nonce < u.nonce else Order.LexLess(t.sender, u.sender)
  }

  predicate AllAhead(t: Tx, xs: seq<Tx>) { forall u :: u in xs ==> Ahead(t, u) }

  predicate InOrder(xs: seq<Tx>)
    decreases |xs|
  {
    xs == [] || (AllAhead(xs[0], xs[1..]) && InOrder(xs[1..]))
  }

  lemma {:induction false} OrderAt(xs: seq<Tx>, i: nat, j: nat)
    requires InOrder(xs) && i < j < |xs|
    ensures Ahead(xs[i], xs[j])
    decreases |xs|
  {
    if i == 0 { assert xs[1..][j - 1] == xs[j]; } else { OrderAt(xs[1..], i - 1, j - 1); }
  }

  lemma {:induction false} JoinInOrder(xs: seq<Tx>, ys: seq<Tx>)
    requires InOrder(xs) && InOrder(ys) && forall t :: t in xs ==> AllAhead(t, ys)
    ensures InOrder(xs + ys)
    decreases |xs|
  {
    if xs == [] {
      assert xs + ys == ys;
    } else {
      var rest := xs[1..];
      JoinInOrder(rest, ys);
      assert (xs + ys)[0] == xs[0] && (xs + ys)[1..] == rest + ys;
      assert xs[0] in xs;
    }
  }

  lemma {:induction false} RunInOrder(arr: seq<Tx>, expected: u64, a: Text)
    requires Climbs(arr) && forall u :: u in arr ==> u.sender == a
    ensures InOrder(TakeRun(arr, expected))
    decreases |arr|
  {
    if arr != [] && arr[0].nonce == expected && expected != MAX64 {
      var more := TakeRun(arr[1..], expected + 1);
      assert forall u :: u in arr[1..] ==> u in arr;
      RunInOrder(arr[1..], expected + 1, a);
      HeadTail(arr[0], more);
      assert arr[0] in arr;
      forall u | u in more
        ensures Ahead(arr[0], u)
      {
        TakenAreThere(arr[1..], expected + 1, u);
      }
    }
  }

  predicate Rising(senders: seq<Text>) {
    forall i, j :: 0 <= i < j < |senders| ==> Order.LexLess(senders[i], senders[j])
  }

  lemma {:induction false} SelectFromInOrder(c: Crypto, networkId: Text, p: Pending, acc: Accounts, listing: seq<Tx>, senders: seq<Text>)
    requires PoolOk(c, networkId, p, acc) && Drawn(p, listing) && Rising(senders)
    ensures InOrder(SelectFrom(acc, listing, senders))
    decreases |senders|
  {
    if senders != [] {
      var a, rest := senders[0], senders[1..];
      assert forall i :: 0 <= i < |rest| ==> rest[i] == senders[i + 1];
      SelectFromInOrder(c, networkId, p, acc, listing, rest);
      SenderInOrder(c, networkId, p, acc, listing, a);
      forall t, u | t in RunOf(acc, listing, a) && u in SelectFrom(acc, listing, rest)
        ensures Ahead(t, u)
      {
        LaterSender(acc, listing, senders, t, u);
      }
      JoinInOrder(RunOf(acc, listing, a), SelectFrom(acc, listing, rest));
    }
  }

  lemma SenderInOrder(c: Crypto, networkId: Text, p: Pending, acc: Accounts, listing: seq<Tx>, a: Text)
    requires PoolOk(c, networkId, p, acc) && Drawn(p, listing)
    ensures InOrder(RunOf(acc, listing, a))
  {
    var group := Group(listing, a);
    GroupDraws(p, listing, a);
    SortDraws(ByNonce, OfSender(p, a), group);
    SortSorts(group);
    SenderPool(c, networkId, p, acc, a);
    SortedClimbs(OfSender(p, a), a, Sort(ByNonce, group));
    forall u | u in Sort(ByNonce, group)
      ensures u.sender == a
    {
      InSort(ByNonce, group, u);
      InGroup(listing, a, u);
    }
    RunInOrder(Sort(ByNonce, group), Nonce(acc, a), a);
  }

  lemma LaterSender(acc: Accounts, listing: seq<Tx>, senders: seq<Text>, t: Tx, u: Tx)
    requires senders != [] && Rising(senders) && t in RunOf(acc, listing, senders[0]) && u in SelectFrom(acc, listing, senders[1..])
    ensures Ahead(t, u)
  {
    InSelectFrom(acc, listing, senders[1..], u);
    var b :| b in senders[1..] && u in RunOf(acc, listing, b);
    var i :| 0 <= i < |senders[1..]| && senders[1..][i] == b;
    assert senders[i + 1] == b;
    RunIsSenders(acc, listing, senders[0], t);
    RunIsSenders(acc, listing, b, u);
    Order.LexAsymmetric(t.sender, t.sender);
  }

  /** A selection goes sender by sender in address order, and up the nonces within each. */
  lemma SelectionInOrder(c: Crypto, networkId: Text, p: Pending, acc: Accounts, listing: seq<Tx>, i: nat, j: nat)
    requires PoolOk(c, networkId, p, acc) && Drawn(p, listing) && i < j < |Select(acc, listing)|
    ensures var t, u := Select(acc, listing)[i], Select(acc, listing)[j];
            if t.sender == u.sender then t.nonce < u.nonce else Order.LexLess(t.sender, u.sender)
  {
    var s := Senders(listing);
    forall x, y | 0 <= x < y < |s|
      ensures Order.LexLess(Order.Ascending(s)[x], Order.Ascending(s)[y])
    {
      Order.AscendingInOrder(s, x, y);
    }
    SelectFromInOrder(c, networkId, p, acc, listing, Order.Ascending(s));
    OrderAt(Select(acc, listing), i, j);
  }
}
