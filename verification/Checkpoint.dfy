/** State roots and state checkpoints (internal/statecommitment/state.go). */
module Checkpoint {
  import opened Base
  import opened Protocol
  import opened Ledger
  import opened LedgerOps
  import Order

  const MAGIC: Bytes := Ascii("SYJSTATE1") + [1]
  const ROOT_TAG: Bytes := Ascii("SYJ-STATE-ROOT-V1") + [0, 1]
  const ACCOUNT_TAG: Bytes := Ascii("SYJ-STATE-ACCOUNT-V1") + [0]
  const MAX_ACCOUNTS: nat := 1_000_000
  const MAX_FIELD: nat := 0x10_0000

  // ---- writing -------------------------------------------------------------

  function Count(n: nat): (b: Bytes)
    ensures |b| == 8
  { PutU64(n % TWO64) }

  function Entry(k: Text, a: Account): Bytes { (Count(|k|) + k) + (PutU64(a.balance) + PutU64(a.nonce)) }

  /** The accounts in key order, each behind a tag (empty in a checkpoint). */
  function Entries(tag: Bytes, keys: seq<Text>, a: Accounts): Bytes
    requires forall k :: k in keys ==> k in a
  {
    if keys == [] then [] else (tag + Entry(keys[0], a[keys[0]])) + Entries(tag, keys[1..], a)
  }

  ghost function Keys(a: Accounts): (keys: seq<Text>)
    ensures |keys| == |a| && forall k :: k in keys <==> k in a
  {
    Order.Ascending(a.Keys)
  }

  function Totals(s: State): Bytes { PutU64(s.genesisSupply) + PutU64(s.miningIssued) + PutU64(s.supply) + Count(|s.accounts|) }

  ghost function RootOf(c: Crypto, s: State): Hex64 {
    Hex(c.sha(ROOT_TAG + Totals(s) + Entries(ACCOUNT_TAG, Keys(s.accounts), s.accounts)))
  }

  ghost function Body(s: State): Bytes {
    MAGIC + Totals(s) + Entries([], Keys(s.accounts), s.accounts)
  }

  ghost function Encode(c: Crypto, s: State): Bytes { Body(s) + RootOf(c, s) }

  lemma EntriesHead(tag: Bytes, keys: seq<Text>, a: Accounts, e: Bytes, tail: seq<Text>)
    requires keys != [] && tail == keys[1..] && forall k :: k in keys ==> k in a
    requires e == tag + Entry(keys[0], a[keys[0]])
    ensures Entries(tag, keys, a) == e + Entries(tag, tail, a)
  {
  }

  lemma {:induction false} EntriesSnoc(tag: Bytes, keys: seq<Text>, i: nat, a: Accounts)
    requires i < |keys| && forall k :: k in keys ==> k in a
    ensures Entries(tag, keys[..i + 1], a) == Entries(tag, keys[..i], a) + (tag + Entry(keys[i], a[keys[i]]))
    decreases i
  {
    var e, last := tag + Entry(keys[0], a[keys[0]]), tag + Entry(keys[i], a[keys[i]]);
    EntriesHead(tag, keys[..i + 1], a, e, keys[..i + 1][1..]);
    if i == 0 {
      assert keys[..1][1..] == [];
    } else {
      EntriesSnoc(tag, keys[1..], i - 1, a);
      assert keys[..i + 1][1..] == keys[1..][..i] && keys[..i][1..] == keys[1..][..i - 1];
      EntriesHead(tag, keys[..i], a, e, keys[..i][1..]);
      Associative(e, Entries(tag, keys[1..][..i - 1], a), last);
    }
  }

  /** The loop over the sorted keys. */
  method WriteListed(tag: Bytes, keys: seq<Text>, balances: map<Text, u64>, nonces: map<Text, u64>) returns (out: Bytes)
    requires forall k :: k in keys ==> k in View(balances, nonces)
    ensures out == Entries(tag, keys, View(balances, nonces))
  {
    out := [];
    for i := 0 to |keys|
      invariant out == Entries(tag, keys[..i], View(balances, nonces))
    {
      EntriesSnoc(tag, keys, i, View(balances, nonces));
      out := out + (tag + Entry(keys[i], Account(At(balances, keys[i]), At(nonces, keys[i]))));
    }
    assert keys[..|keys|] == keys;
  }

  method WriteEntries(tag: Bytes, s: Snapshot) returns (out: Bytes)
    ensures out == Entries(tag, Keys(s.Held()), s.Held())
  {
    assert s.Held().Keys == s.balances.Keys + s.nonces.Keys;
    var keys := Order.SortKeys(s.balances.Keys + s.nonces.Keys);
    out := WriteListed(tag, keys, s.balances, s.nonces);
  }

  method WriteTotals(s: Snapshot) returns (out: Bytes)
    ensures out == Totals(s.Value())
  {
    assert s.Held().Keys == s.balances.Keys + s.nonces.Keys;
    assert |s.Held()| == |s.Held().Keys|;
    out := PutU64(s.genesisSupply) + PutU64(s.miningIssued) + PutU64(s.supply) + Count(|s.balances.Keys + s.nonces.Keys|);
  }

  /** `Snapshot.Root`. */
  method ComputeRoot(c: Crypto, s: Snapshot) returns (root: Text)
    ensures root == RootOf(c, s.Value())
  {
    var totals := WriteTotals(s);
    var entries := WriteEntries(ACCOUNT_TAG, s);
    root := Hex(c.sha(ROOT_TAG + totals + entries));
  }

  /** `Encode`. */
  method EncodeSnapshot(c: Crypto, s: Snapshot) returns (out: Bytes)
    ensures out == Encode(c, s.Value())
  {
    var totals := WriteTotals(s);
    var entries := WriteEntries([], s);
    var root := ComputeRoot(c, s);
    out := MAGIC + totals + entries + root;
  }

  // ---- reading -------------------------------------------------------------

  function ReadU64(d: Bytes): Option<(u64, Bytes)> {
    if |d| < 8 then None else Some((GetU64(d[..8]), d[8..]))
  }

  function ReadField(d: Bytes): Option<(Text, Bytes)> {
    var (n, r) :- ReadU64(d);
    if n > MAX_FIELD || |r| < n then None else Some((r[..n], r[n..]))
  }

  function ReadEntry(d: Bytes): Option<(Text, Account, Bytes)> {
    var (k, r) :- ReadField(d);
    var (balance, r2) :- ReadU64(r);
    var (nonce, r3) :- ReadU64(r2);
    Some((k, Account(balance, nonce), r3))
  }

  function ReadEntries(n: nat, acc: Accounts, d: Bytes): Option<(Accounts, Bytes)> {
    if n == 0 then Some((acc, d))
    else
      var (k, a, r) :- ReadEntry(d);
      if k in acc then None else ReadEntries(n - 1, acc[k := a], r)
  }

  function ReadTotals(d: Bytes): Option<(u64, u64, u64, u64, Bytes)> {
    var (g, r1) :- ReadU64(d);
    var (m, r2) :- ReadU64(r1);
    var (s, r3) :- ReadU64(r2);
    var (n, r4) :- ReadU64(r3);
    Some((g, m, s, n, r4))
  }

  /** Everything before the trailing root, and what follows it. */
  function ReadBody(d: Bytes): Option<(State, Bytes)> {
    if |d| < |MAGIC| || d[..|MAGIC|] != MAGIC then None
    else ReadAfterMagic(d[|MAGIC|..])
  }

  function ReadAfterMagic(t: Bytes): Option<(State, Bytes)> {
    var (g, m, s, n, r) :- ReadTotals(t);
    if n > MAX_ACCOUNTS then None
    else
      var (accounts, rest) :- ReadEntries(n, map[], r);
      Some((State(accounts, g, m, s), rest))
  }

  ghost function Decode(c: Crypto, d: Bytes): Option<State> {
    var (s, rest) :- ReadBody(d);
    if |rest| == 64 && rest == RootOf(c, s) then Some(s) else None
  }

  /** The account loop of `Decode`: both maps receive every key. */
  method DecodeEntries(n: u64, data: Bytes) returns (ok: bool, balances: map<Text, u64>, nonces: map<Text, u64>, rest: Bytes)
    ensures ok == ReadEntries(n, map[], data).Some?
    ensures ok ==> ReadEntries(n, map[], data) == Some((View(balances, nonces), rest))
  {
    balances, nonces, rest := map[], map[], data;
    var i: nat := 0;
    assert View(balances, nonces) == map[];
    while i < n
      invariant i <= n && balances.Keys == nonces.Keys
      invariant ReadEntries(n, map[], data) == ReadEntries(n - i, View(balances, nonces), rest)
    {
      var e := ReadEntry(rest);
      if e.None? { return false, balances, nonces, rest; }
      var (k, a, r) := e.value;
      if k in balances || k in nonces { return false, balances, nonces, rest; }
      ViewWriteBoth(balances, nonces, k, a);
      balances, nonces, rest := balances[k := a.balance], nonces[k := a.nonce], r;
      i := i + 1;
    }
    ok := true;
  }

  lemma ViewWriteBoth(balances: map<Text, u64>, nonces: map<Text, u64>, k: Text, a: Account)
    ensures View(balances[k := a.balance], nonces[k := a.nonce]) == View(balances, nonces)[k := a]
  {
  }

  /** `Decode`. */
  method DecodeSnapshot(c: Crypto, data: Bytes) returns (s: Snapshot?)
    ensures s != null <==> Decode(c, data).Some?
    ensures s != null ==> fresh(s) && Decode(c, data) == Some(s.Value())
  {
    if |data| < |MAGIC| || data[..|MAGIC|] != MAGIC { return null; }
    var totals := ReadTotals(data[|MAGIC|..]);
    if totals.None? { return null; }
    var (g, m, supply, n, r) := totals.value;
    if n > MAX_ACCOUNTS { return null; }
    var ok, balances, nonces, rest := DecodeEntries(n, r);
    if !ok { return null; }
    if |rest| != 64 { return null; }
    var decoded := new Snapshot.Of(balances, nonces, g, m, supply);
    var root := ComputeRoot(c, decoded);
    s := if rest == root then decoded else null;
  }

  // ---- reading back what was written ---------------------------------------

  lemma ReadU64Written(x: u64, rest: Bytes)
    ensures ReadU64(PutU64(x) + rest) == Some((x, rest))
  {
    var d := PutU64(x) + rest;
    assert d[..8] == PutU64(x) && d[8..] == rest;
  }

  lemma ReadFieldWritten(k: Text, rest: Bytes)
    requires |k| < TWO64
    ensures ReadField((Count(|k|) + k) + rest) == if |k| <= MAX_FIELD then Some((k, rest)) else None
  {
    Associative(Count(|k|), k, rest);
    CountExact(|k|);
    ReadU64Written(|k|, k + rest);
    FrontBack(k, rest);
  }

  lemma ReadEntryWritten(k: Text, a: Account, rest: Bytes)
    requires |k| < TWO64
    ensures ReadEntry(Entry(k, a) + rest) == if |k| <= MAX_FIELD then Some((k, a, rest)) else None
  {
    var balance, nonce := PutU64(a.balance), PutU64(a.nonce);
    assert Entry(k, a) + rest == (Count(|k|) + k) + (balance + (nonce + rest));
    ReadFieldWritten(k, balance + (nonce + rest));
    ReadU64Written(a.balance, nonce + rest);
    ReadU64Written(a.nonce, rest);
  }

  function Sub(keys: seq<Text>, a: Accounts): Accounts
    requires forall k :: k in keys ==> k in a
  {
    map k | k in keys :: a[k]
  }

  /** A listing is read back in full exactly when no key is too long. */
  lemma {:induction false} ReadEntriesWritten(keys: seq<Text>, a: Accounts, acc: Accounts, rest: Bytes)
    requires Distinct(keys) && forall k :: k in keys ==> k in a && k !in acc && |k| < TWO64
    ensures ReadEntries(|keys|, acc, Entries([], keys, a) + rest) == if Short(keys) then Some((acc + Sub(keys, a), rest)) else None
    decreases |keys|
  {
    if keys == [] {
      assert Entries([], keys, a) + rest == rest && acc + Sub(keys, a) == acc;
    } else {
      var k, tail := keys[0], keys[1..];
      ListingHead(keys, a, rest);
      ReadEntryWritten(k, a[k], Entries([], tail, a) + rest);
      SubHead(keys, a, acc);
      ReadEntriesWritten(tail, a, acc[k := a[k]], rest);
    }
  }

  predicate Short(keys: seq<Text>) {
    forall k :: k in keys ==> |k| <= MAX_FIELD
  }

  lemma ListingHead(keys: seq<Text>, a: Accounts, rest: Bytes)
    requires keys != [] && forall k :: k in keys ==> k in a
    ensures Entries([], keys, a) + rest == Entry(keys[0], a[keys[0]]) + (Entries([], keys[1..], a) + rest)
  {
    var e := Entry(keys[0], a[keys[0]]);
    assert [] + e == e;
    EntriesHead([], keys, a, e, keys[1..]);
    Associative(e, Entries([], keys[1..], a), rest);
  }

  lemma SubHead(keys: seq<Text>, a: Accounts, acc: Accounts)
    requires keys != [] && Distinct(keys) && forall k :: k in keys ==> k in a
    ensures acc[keys[0] := a[keys[0]]] + Sub(keys[1..], a) == acc + Sub(keys, a)
    ensures keys[0] !in keys[1..] && Distinct(keys[1..])
    ensures Short(keys) <==> |keys[0]| <= MAX_FIELD && Short(keys[1..])
  {
    var k, tail := keys[0], keys[1..];
    DistinctTail(keys);
    assert forall j :: j in keys <==> j == k || j in tail;
  }

  lemma KeysDistinct(a: Accounts)
    ensures Distinct(Keys(a)) && Sub(Keys(a), a) == a
  {
    Order.AscendingIsDistinct(a.Keys);
  }

  /** The limits `Decode` puts on a checkpoint. */
  predicate Decodable(s: State) {
    |s.accounts| <= MAX_ACCOUNTS && forall k :: k in s.accounts ==> |k| <= MAX_FIELD
  }

  /** What a 64-bit machine can hold. */
  predicate Representable(s: State) {
    |s.accounts| < TWO64 && forall k :: k in s.accounts ==> |k| < TWO64
  }

  lemma ReadTotalsOf(g: u64, m: u64, u: u64, n: u64, d1: Bytes, d2: Bytes, d3: Bytes, rest: Bytes)
    requires d3 == PutU64(n) + rest && d2 == PutU64(u) + d3 && d1 == PutU64(m) + d2
    ensures ReadTotals(PutU64(g) + d1) == Some((g, m, u, n, rest))
  {
    ReadU64Written(g, d1);
    ReadU64Written(m, d2);
    ReadU64Written(u, d3);
    ReadU64Written(n, rest);
  }

  lemma Regroup(g: Bytes, m: Bytes, u: Bytes, n: Bytes, rest: Bytes)
    ensures (g + m + u + n) + rest == g + (m + (u + (n + rest)))
  {
  }

  lemma CountExact(n: u64)
    ensures Count(n) == PutU64(n)
  {
  }

  lemma ReadTotalsWritten(s: State, rest: Bytes)
    requires Representable(s)
    ensures ReadTotals(Totals(s) + rest) == Some((s.genesisSupply, s.miningIssued, s.supply, |s.accounts|, rest))
  {
    var n: u64 := |s.accounts|;
    CountExact(n);
    Regroup(PutU64(s.genesisSupply), PutU64(s.miningIssued), PutU64(s.supply), PutU64(n), rest);
    var d3 := PutU64(n) + rest;
    var d2 := PutU64(s.supply) + d3;
    ReadTotalsOf(s.genesisSupply, s.miningIssued, s.supply, n, PutU64(s.miningIssued) + d2, d2, d3, rest);
  }

  lemma Associate(magic: Bytes, a: Bytes, b: Bytes, rest: Bytes)
    ensures (magic + a + b) + rest == magic + (a + (b + rest))
  {
  }

  lemma ReadBodyFrom(d: Bytes, t: Bytes)
    requires d == MAGIC + t
    ensures ReadBody(d) == ReadAfterMagic(t)
  {
    assert d[..|MAGIC|] == MAGIC && d[|MAGIC|..] == t;
  }

  lemma ReadAfterTotals(t: Bytes, s: State, r: Bytes)
    requires ReadTotals(t) == Some((s.genesisSupply, s.miningIssued, s.supply, |s.accounts|, r))
    ensures ReadAfterMagic(t) ==
            if |s.accounts| > MAX_ACCOUNTS then None
            else match ReadEntries(|s.accounts|, map[], r)
              case Some((accounts, rest)) => Some((State(accounts, s.genesisSupply, s.miningIssued, s.supply), rest))
              case None => None
  {
  }

  lemma AllEntriesWritten(a: Accounts, rest: Bytes)
    requires forall k :: k in a ==> |k| < TWO64
    ensures ReadEntries(|a|, map[], Entries([], Keys(a), a) + rest) ==
            if forall k :: k in a ==> |k| <= MAX_FIELD then Some((a, rest)) else None
  {
    KeysDistinct(a);
    ReadEntriesWritten(Keys(a), a, map[], rest);
    ShortKeys(a);
    assert map[] + a == a;
  }

  lemma ShortKeys(a: Accounts)
    ensures Short(Keys(a)) <==> forall k :: k in a ==> |k| <= MAX_FIELD
  {
  }

  lemma ReadAfterMagicWritten(s: State, entries: Bytes, rest: Bytes)
    requires Representable(s) && entries == Entries([], Keys(s.accounts), s.accounts)
    ensures ReadAfterMagic(Totals(s) + (entries + rest)) == if Decodable(s) then Some((s, rest)) else None
  {
    var t := Totals(s) + (entries + rest);
    ReadTotalsWritten(s, entries + rest);
    ReadAfterTotals(t, s, entries + rest);
    AllEntriesWritten(s.accounts, rest);
  }

  lemma ReadBodyWritten(s: State, rest: Bytes)
    requires Representable(s)
    ensures ReadBody(Body(s) + rest) == if Decodable(s) then Some((s, rest)) else None
  {
    var entries := Entries([], Keys(s.accounts), s.accounts);
    Associate(MAGIC, Totals(s), entries, rest);
    ReadBodyFrom(Body(s) + rest, Totals(s) + (entries + rest));
    ReadAfterMagicWritten(s, entries, rest);
  }

  /** A checkpoint decodes to the state it was taken from exactly when the state is within the limits. */
  lemma CheckpointRoundTrip(c: Crypto, s: State)
    requires Representable(s)
    ensures Decode(c, Encode(c, s)) == if Decodable(s) then Some(s) else None
  {
    ReadBodyWritten(s, RootOf(c, s));
  }

  // ---- cut or extended checkpoints -----------------------------------------

  lemma ReadEntryExtends(d: Bytes, q: Bytes)
    requires ReadEntry(d).Some?
    ensures var (k, a, r) := ReadEntry(d).value; ReadEntry(d + q) == Some((k, a, r + q))
  {
    ReadFieldExtends(d, q);
    var (k, r) := ReadField(d).value;
    ReadU64Extends(r, q);
    ReadU64Extends(ReadU64(r).value.1, q);
  }

  lemma ReadU64Extends(d: Bytes, q: Bytes)
    requires ReadU64(d).Some?
    ensures ReadU64(d + q) == Some((ReadU64(d).value.0, ReadU64(d).value.1 + q))
  {
    assert (d + q)[..8] == d[..8] && (d + q)[8..] == d[8..] + q;
  }

  lemma ReadFieldExtends(d: Bytes, q: Bytes)
    requires ReadField(d).Some?
    ensures ReadField(d + q) == Some((ReadField(d).value.0, ReadField(d).value.1 + q))
  {
    ReadU64Extends(d, q);
    var (n, r) := ReadU64(d).value;
    assert (r + q)[..n] == r[..n] && (r + q)[n..] == r[n..] + q;
  }

  lemma {:induction false} ReadEntriesExtends(n: nat, acc: Accounts, d: Bytes, q: Bytes)
    requires ReadEntries(n, acc, d).Some?
    ensures ReadEntries(n, acc, d + q) == Some((ReadEntries(n, acc, d).value.0, ReadEntries(n, acc, d).value.1 + q))
  {
    if n > 0 {
      ReadEntryExtends(d, q);
      var (k, a, r) := ReadEntry(d).value;
      ReadEntriesExtends(n - 1, acc[k := a], r, q);
    }
  }

  lemma ReadTotalsExtends(d: Bytes, q: Bytes)
    requires ReadTotals(d).Some?
    ensures var (g, m, s, n, r) := ReadTotals(d).value; ReadTotals(d + q) == Some((g, m, s, n, r + q))
  {
    ReadU64Extends(d, q);
    var r1 := ReadU64(d).value.1;
    ReadU64Extends(r1, q);
    var r2 := ReadU64(r1).value.1;
    ReadU64Extends(r2, q);
    ReadU64Extends(ReadU64(r2).value.1, q);
  }

  lemma ReadBodyExtends(d: Bytes, q: Bytes)
    requires ReadBody(d).Some?
    ensures ReadBody(d + q) == Some((ReadBody(d).value.0, ReadBody(d).value.1 + q))
  {
    var t := d[|MAGIC|..];
    assert (d + q)[..|MAGIC|] == d[..|MAGIC|] && (d + q)[|MAGIC|..] == t + q;
    ReadTotalsExtends(t, q);
    var (g, m, s, n, r) := ReadTotals(t).value;
    ReadEntriesExtends(n, map[], r, q);
  }

  lemma CutRejected(c: Crypto, s: State, cut: nat)
    requires Representable(s) && cut < |Encode(c, s)|
    ensures Decode(c, Encode(c, s)[..cut]).None?
  {
    ReadBodyWritten(s, RootOf(c, s));
    ShortRejected(c, Encode(c, s)[..cut], Encode(c, s)[cut..], Encode(c, s));
  }

  /** If reading all of `e` leaves at most a root, reading a strict prefix leaves less than one. */
  lemma ShortRejected(c: Crypto, p: Bytes, q: Bytes, e: Bytes)
    requires p + q == e && q != []
    requires ReadBody(e).Some? ==> |ReadBody(e).value.1| <= 64
    ensures Decode(c, p).None?
  {
    if ReadBody(p).Some? { ReadBodyExtends(p, q); }
  }

  lemma ExtensionRejected(c: Crypto, s: State, q: Bytes)
    requires Representable(s) && q != []
    ensures Decode(c, Encode(c, s) + q).None?
  {
    assert Encode(c, s) + q == Body(s) + (RootOf(c, s) + q);
    ReadBodyWritten(s, RootOf(c, s) + q);
  }

  // ---- sizes ---------------------------------------------------------------

  lemma {:induction false} EntriesLength(keys: seq<Text>, a: Accounts)
    requires forall k :: k in keys ==> k in a && |k| == 43
    ensures |Entries([], keys, a)| == 67 * |keys|
    decreases |keys|
  {
    if keys != [] { EntriesLength(keys[1..], a); }
  }

  /** A checkpoint of wallet accounts takes 106 bytes and 67 more per account. */
  lemma CheckpointSize(c: Crypto, s: State)
    requires forall k :: k in s.accounts ==> |k| == 43
    ensures |Encode(c, s)| == 106 + 67 * |s.accounts|
  {
    EntriesLength(Keys(s.accounts), s.accounts);
  }
}
