/** Choosing the transactions of a block template. (internal/node/node.go, `selectV2Transactions`) */
module Selection {
  import opened Base
  import opened Protocol
  import opened Ledger
  import opened LedgerOps
  import opened Conservation
  import opened Mempool
  import Order

  // ---- the selection as a value --------------------------------------------

  predicate Selectable(tx: Tx) { tx.version == 2 && !IsCoinbase(tx) }

  function Group(txs: seq<Tx>, a: Text): seq<Tx>
    decreases |txs|
  {
    if txs == [] then []
    else (if Selectable(txs[0]) && txs[0].sender == a then [txs[0]] else []) + Group(txs[1..], a)
  }

  function Senders(txs: seq<Tx>): set<Text> {
    set i | 0 <= i < |txs| && Selectable(txs[i]) :: txs[i].sender
  }

  predicate ByNonce(t: Tx, u: Tx) { t.nonce < u.nonce }

  /** The leading transactions whose nonces count up from the expected one. */
  function TakeRun(arr: seq<Tx>, expected: u64): seq<Tx>
    decreases |arr|
  {
    if arr == [] || arr[0].nonce != expected then []
    else if expected == MAX64 then [arr[0]]
    else [arr[0]] + TakeRun(arr[1..], expected + 1)
  }

  function RunOf(acc: Accounts, txs: seq<Tx>, a: Text): seq<Tx> {
    TakeRun(Sort(ByNonce, Group(txs, a)), Nonce(acc, a))
  }

  function SelectFrom(acc: Accounts, txs: seq<Tx>, senders: seq<Text>): seq<Tx>
    decreases |senders|
  {
    if senders == [] then [] else RunOf(acc, txs, senders[0]) + SelectFrom(acc, txs, senders[1..])
  }

  /** Sender by sender in key order, each with its run of next nonces. */
  ghost function Select(acc: Accounts, txs: seq<Tx>): seq<Tx> {
    SelectFrom(acc, txs, Order.Ascending(Senders(txs)))
  }

  // ---- the selection as it is computed -------------------------------------

  lemma {:induction false} GroupSnoc(txs: seq<Tx>, t: Tx, a: Text)
    ensures Group(txs + [t], a) == Group(txs, a) + (if Selectable(t) && t.sender == a then [t] else [])
    decreases |txs|
  {
    if txs == [] {
      assert [t][1..] == [];
    } else {
      assert (txs + [t])[1..] == txs[1..] + [t];
      GroupSnoc(txs[1..], t, a);
    }
  }

  lemma {:induction false} GroupEmpty(txs: seq<Tx>, a: Text)
    requires a !in Senders(txs)
    ensures Group(txs, a) == []
    decreases |txs|
  {
    if txs != [] {
      assert forall i :: 0 <= i < |txs[1..]| ==> txs[1..][i] == txs[i + 1];
      assert Senders(txs[1..]) <= Senders(txs);
      GroupEmpty(txs[1..], a);
    }
  }

  lemma SendersSnoc(txs: seq<Tx>, t: Tx)
    ensures Senders(txs + [t]) == Senders(txs) + (if Selectable(t) then {t.sender} else {})
  {
    var more := txs + [t];
    assert more[|txs|] == t;
    assert forall i :: 0 <= i < |txs| ==> more[i] == txs[i];
  }

  predicate GroupedAt(groups: map<Text, seq<Tx>>, txs: seq<Tx>, a: Text)
    requires a in groups
  { groups[a] == Group(txs, a) }

  predicate Grouped(groups: map<Text, seq<Tx>>, txs: seq<Tx>) {
    groups.Keys == Senders(txs) && forall a {:trigger GroupedAt(groups, txs, a)} :: a in groups ==> GroupedAt(groups, txs, a)
  }

  lemma GroupMore(groups: map<Text, seq<Tx>>, txs: seq<Tx>, t: Tx)
    requires Grouped(groups, txs)
    ensures var arr := if t.sender in groups then groups[t.sender] else [];
            Grouped(if Selectable(t) then groups[t.sender := arr + [t]] else groups, txs + [t])
  {
    var arr := if t.sender in groups then groups[t.sender] else [];
    var more := if Selectable(t) then groups[t.sender := arr + [t]] else groups;
    SendersSnoc(txs, t);
    forall a | a in more
      ensures GroupedAt(more, txs + [t], a)
    {
      GroupSnoc(txs, t, a);
      if a in groups { assert GroupedAt(groups, txs, a); } else { GroupEmpty(txs, a); }
    }
  }

  method GroupBySender(txs: seq<Tx>) returns (groups: map<Text, seq<Tx>>)
    ensures Grouped(groups, txs)
  {
    groups := map[];
    for i := 0 to |txs|
      invariant Grouped(groups, txs[..i])
    {
      assert txs[..i + 1] == txs[..i] + [txs[i]];
      GroupMore(groups, txs[..i], txs[i]);
      if !Selectable(txs[i]) { continue; }
      var arr := if txs[i].sender in groups then groups[txs[i].sender] else [];
      groups := groups[txs[i].sender := arr + [txs[i]]];
    }
    assert txs[..|txs|] == txs;
  }

  method AppendRun(out: seq<Tx>, arr: seq<Tx>, next: u64) returns (more: seq<Tx>)
    ensures more == out + TakeRun(arr, next)
  {
    more := out;
    var expected := next;
    var i := 0;
    ghost var ahead := TakeRun(arr, next);
    assert arr[0..] == arr;
    while i < |arr|
      invariant 0 <= i <= |arr| && 0 <= expected <= MAX64
      invariant ahead == TakeRun(arr[i..], expected)
      invariant out + TakeRun(arr, next) == more + ahead
    {
      if arr[i].nonce != expected { return; }
      assert arr[i..][1..] == arr[i + 1..];
      more := more + [arr[i]];
      if expected == MAX64 { return; }
      ahead := TakeRun(arr[i + 1..], expected + 1);
      expected := expected + 1;
      i := i + 1;
    }
  }

  /** `selectV2Transactions`; the nonce map is the chain's. */
  method SelectV2(nonces: map<Text, u64>, txs: seq<Tx>, ghost acc: Accounts) returns (out: seq<Tx>)
    requires forall k :: Nonce(acc, k) == At(nonces, k)
    ensures out == Select(acc, txs)
  {
    var groups := GroupBySender(txs);
    var senders := Order.SortKeys(groups.Keys);
    out := [];
    assert senders[0..] == senders;
    for i := 0 to |senders|
      invariant out + SelectFrom(acc, txs, senders[i..]) == Select(acc, txs)
    {
      var a := senders[i];
      assert GroupedAt(groups, txs, a);
      assert senders[i..][1..] == senders[i + 1..];
      ghost var before := out;
      out := AppendRun(out, Sort(ByNonce, groups[a]), At(nonces, a));
      Associative(before, RunOf(acc, txs, a), SelectFrom(acc, txs, senders[i + 1..]));
    }
  }

  // ---- what is selected from a pool ----------------------------------------

  function OfSender(p: Pending, a: Text): Pending { map k | k in p && p[k].sender == a :: p[k] }

  lemma {:induction false} DrawnMore(p: Pending, q: Pending, xs: seq<Tx>)
    requires Drawn(p, xs) && forall k :: k in p ==> k in q && q[k] == p[k]
    ensures Drawn(q, xs)
    decreases |xs|
  {
    if xs != [] { DrawnMore(p - {xs[0].txId}, q - {xs[0].txId}, xs[1..]); }
  }

  lemma {:induction false} DrawnJoin(p: Pending, q: Pending, xs: seq<Tx>, ys: seq<Tx>)
    requires Drawn(p, xs) && Drawn(q, ys) && p.Keys !! q.Keys
    ensures Drawn(p + q, xs + ys)
    decreases |xs|
  {
    if xs == [] {
      assert xs + ys == ys;
      DrawnMore(q, p + q, ys);
    } else {
      var k := xs[0].txId;
      DrawnJoin(p - {k}, q, xs[1..], ys);
      assert (p + q) - {k} == (p - {k}) + q;
      assert (xs + ys)[0] == xs[0] && (xs + ys)[1..] == xs[1..] + ys;
    }
  }

  lemma {:induction false} GroupDraws(p: Pending, txs: seq<Tx>, a: Text)
    requires Drawn(p, txs)
    ensures Drawn(OfSender(p, a), Group(txs, a))
    decreases |txs|
  {
    if txs != [] {
      var k := txs[0].txId;
      GroupDraws(p - {k}, txs[1..], a);
      assert OfSender(p - {k}, a) == OfSender(p, a) - {k};
      if Selectable(txs[0]) && txs[0].sender == a {
        HeadTail(txs[0], Group(txs[1..], a));
      } else {
        assert [] + Group(txs[1..], a) == Group(txs[1..], a);
        DrawnMore(OfSender(p, a) - {k}, OfSender(p, a), Group(txs[1..], a));
      }
    }
  }

  lemma {:induction false} TakeRunPrefix(arr: seq<Tx>, expected: u64) returns (n: nat)
    ensures n <= |arr| && TakeRun(arr, expected) == arr[..n]
    decreases |arr|
  {
    if arr == [] || arr[0].nonce != expected {
      n := 0;
    } else if expected == MAX64 {
      n := 1;
    } else {
      var m := TakeRunPrefix(arr[1..], expected + 1);
      n := m + 1;
      assert arr[..n] == [arr[0]] + arr[1..][..m];
    }
  }

  lemma RunDraws(p: Pending, acc: Accounts, txs: seq<Tx>, a: Text)
    requires Drawn(p, txs)
    ensures Drawn(OfSender(p, a), RunOf(acc, txs, a))
  {
    GroupDraws(p, txs, a);
    SortDraws(ByNonce, OfSender(p, a), Group(txs, a));
    var n := TakeRunPrefix(Sort(ByNonce, Group(txs, a)), Nonce(acc, a));
    DrawnPrefix(OfSender(p, a), Sort(ByNonce, Group(txs, a)), n);
  }

  function OfSenders(p: Pending, s: set<Text>): Pending { map k | k in p && p[k].sender in s :: p[k] }

  lemma {:induction false} SelectDraws(p: Pending, acc: Accounts, txs: seq<Tx>, senders: seq<Text>)
    requires Drawn(p, txs) && Distinct(senders)
    ensures Drawn(OfSenders(p, set a | a in senders), SelectFrom(acc, txs, senders))
    decreases |senders|
  {
    if senders != [] {
      var a, rest := senders[0], senders[1..];
      DistinctTail(senders);
      RunDraws(p, acc, txs, a);
      SelectDraws(p, acc, txs, rest);
      var mine, others := OfSender(p, a), OfSenders(p, set b | b in rest);
      DrawnJoin(mine, others, RunOf(acc, txs, a), SelectFrom(acc, txs, rest));
      assert forall b :: b in senders <==> b == a || b in rest;
      assert mine + others == OfSenders(p, set b | b in senders);
    }
  }

  /** What is selected from a listing of the pool is drawn from the pool. */
  lemma SelectionDrawn(p: Pending, acc: Accounts, txs: seq<Tx>)
    requires Drawn(p, txs)
    ensures Drawn(p, Select(acc, txs))
  {
    var senders := Order.Ascending(Senders(txs));
    Order.AscendingIsDistinct(Senders(txs));
    SelectDraws(p, acc, txs, senders);
    DrawnMore(OfSenders(p, set a | a in senders), p, Select(acc, txs));
  }

  // ---- nonces of the selection ---------------------------------------------

  /** Each transaction carries its sender's next nonce when its turn comes. */
  predicate Sequenced(acc: Accounts, xs: seq<Tx>)
    decreases |xs|
  {
    xs == [] ||
    (xs[0].nonce == Nonce(acc, xs[0].sender) && xs[0].nonce != MAX64
     && Sequenced(SetNonce(acc, xs[0].sender, xs[0].nonce + 1), xs[1..]))
  }

  lemma {:induction false} SameTurns(acc: Accounts, other: Accounts, xs: seq<Tx>)
    requires Sequenced(acc, xs) && forall i :: 0 <= i < |xs| ==> Nonce(other, xs[i].sender) == Nonce(acc, xs[i].sender)
    ensures Sequenced(other, xs)
    decreases |xs|
  {
    if xs != [] {
      var t := xs[0];
      assert forall i :: 0 <= i < |xs[1..]| ==> xs[1..][i] == xs[i + 1];
      SameTurns(SetNonce(acc, t.sender, t.nonce + 1), SetNonce(other, t.sender, t.nonce + 1), xs[1..]);
    }
  }

  predicate From(xs: seq<Tx>, a: Text) {
    forall i :: 0 <= i < |xs| ==> xs[i].sender == a && xs[i].nonce != MAX64
  }

  lemma {:induction false} RunSequenced(acc: Accounts, arr: seq<Tx>, a: Text)
    requires From(TakeRun(arr, Nonce(acc, a)), a)
    ensures Sequenced(acc, TakeRun(arr, Nonce(acc, a)))
    decreases |arr|
  {
    var n := Nonce(acc, a);
    var run := TakeRun(arr, n);
    if run != [] {
      assert run[0] == arr[0];
      var next := SetNonce(acc, a, n + 1);
      HeadTail(arr[0], TakeRun(arr[1..], n + 1));
      var tail := run[1..];
      assert tail == TakeRun(arr[1..], Nonce(next, a));
      assert forall i :: 0 <= i < |tail| ==> tail[i] == run[i + 1];
      RunSequenced(next, arr[1..], a);
    }
  }

  predicate NotFrom(xs: seq<Tx>, a: Text) {
    forall i :: 0 <= i < |xs| ==> xs[i].sender != a
  }

  lemma {:induction false} JoinSequenced(acc: Accounts, xs: seq<Tx>, ys: seq<Tx>, a: Text)
    requires Sequenced(acc, xs) && Sequenced(acc, ys) && From(xs, a) && NotFrom(ys, a)
    ensures Sequenced(acc, xs + ys)
    decreases |xs|
  {
    if xs == [] {
      assert xs + ys == ys;
    } else {
      var next := SetNonce(acc, a, xs[0].nonce + 1);
      assert forall i :: 0 <= i < |xs[1..]| ==> xs[1..][i] == xs[i + 1];
      SameTurns(acc, next, ys);
      JoinSequenced(next, xs[1..], ys, a);
      assert (xs + ys)[0] == xs[0] && (xs + ys)[1..] == xs[1..] + ys;
    }
  }

  lemma {:induction false} DrawnAre(p: Pending, xs: seq<Tx>, i: nat)
    requires Drawn(p, xs) && i < |xs|
    ensures xs[i].txId in p && p[xs[i].txId] == xs[i]
    decreases |xs|
  {
    if i > 0 { DrawnAre(p - {xs[0].txId}, xs[1..], i - 1); }
  }

  lemma {:induction false} SelectSequenced(p: Pending, acc: Accounts, txs: seq<Tx>, senders: seq<Text>)
    requires Drawn(p, txs) && Distinct(senders) && forall k :: k in p ==> p[k].nonce != MAX64
    ensures Sequenced(acc, SelectFrom(acc, txs, senders))
    decreases |senders|
  {
    if senders != [] {
      var a, rest := senders[0], senders[1..];
      DistinctTail(senders);
      var run, others := RunOf(acc, txs, a), SelectFrom(acc, txs, rest);
      RunFrom(p, acc, txs, a);
      RunSequenced(acc, Sort(ByNonce, Group(txs, a)), a);
      SelectSequenced(p, acc, txs, rest);
      OthersNotFrom(p, acc, txs, rest, a);
      JoinSequenced(acc, run, others, a);
    }
  }

  lemma RunFrom(p: Pending, acc: Accounts, txs: seq<Tx>, a: Text)
    requires Drawn(p, txs) && forall k :: k in p ==> p[k].nonce != MAX64
    ensures From(RunOf(acc, txs, a), a)
  {
    RunDraws(p, acc, txs, a);
    var run := RunOf(acc, txs, a);
    forall i | 0 <= i < |run|
      ensures run[i].sender == a && run[i].nonce != MAX64
    {
      DrawnAre(OfSender(p, a), run, i);
    }
  }

  lemma OthersNotFrom(p: Pending, acc: Accounts, txs: seq<Tx>, rest: seq<Text>, a: Text)
    requires Drawn(p, txs) && Distinct(rest) && a !in rest
    ensures NotFrom(SelectFrom(acc, txs, rest), a)
  {
    SelectDraws(p, acc, txs, rest);
    var xs := SelectFrom(acc, txs, rest);
    forall i | 0 <= i < |xs|
      ensures xs[i].sender != a
    {
      DrawnAre(OfSenders(p, set b | b in rest), xs, i);
    }
  }

  lemma SelectionSequenced(p: Pending, acc: Accounts, txs: seq<Tx>)
    requires Drawn(p, txs) && forall k :: k in p ==> p[k].nonce != MAX64
    ensures Sequenced(acc, Select(acc, txs))
  {
    Order.AscendingIsDistinct(Senders(txs));
    SelectSequenced(p, acc, txs, Order.Ascending(Senders(txs)));
  }
}
