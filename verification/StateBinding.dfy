/** A state root commits to every account: two states share one only through a digest clash. (internal/statecommitment/state.go) */
module StateBinding {
  import opened Base
  import opened Protocol
  import opened Ledger
  import opened Checkpoint
  import Merkle
  import Order

  // ---- bytes that start alike ------------------------------------------------

  lemma Cut(a: Bytes, x: Bytes, b: Bytes, y: Bytes)
    requires a + x == b + y && |a| == |b|
    ensures a == b && x == y
  {
    assert (a + x)[..|a|] == a && (b + y)[..|b|] == b;
    assert (a + x)[|a|..] == x && (b + y)[|b|..] == y;
  }

  lemma PutU64Injective(x: u64, y: u64)
    requires PutU64(x) == PutU64(y)
    ensures x == y
  {
    assert FromBigEndian(PutU64(x)) == x && FromBigEndian(PutU64(y)) == y;
  }

  lemma CountInjective(m: u64, n: u64)
    requires Count(m) == Count(n)
    ensures m == n
  {
    CountExact(m);
    CountExact(n);
    PutU64Injective(m, n);
  }

  /** A counted text is told from what follows it. */
  lemma FieldBinds(k: Text, x: Bytes, j: Text, y: Bytes)
    requires |k| < TWO64 && |j| < TWO64 && Count(|k|) + (k + x) == Count(|j|) + (j + y)
    ensures k == j && x == y
  {
    Cut(Count(|k|), k + x, Count(|j|), j + y);
    CountInjective(|k|, |j|);
    Cut(k, x, j, y);
  }

  lemma EntryBinds(k: Text, a: Account, x: Bytes, j: Text, b: Account, y: Bytes)
    requires |k| < TWO64 && |j| < TWO64 && Entry(k, a) + x == Entry(j, b) + y
    ensures k == j && a == b && x == y
  {
    EntryLayout(k, a, x);
    EntryLayout(j, b, y);
    FieldBinds(k, PutU64(a.balance) + (PutU64(a.nonce) + x), j, PutU64(b.balance) + (PutU64(b.nonce) + y));
    Cut(PutU64(a.balance), PutU64(a.nonce) + x, PutU64(b.balance), PutU64(b.nonce) + y);
    Cut(PutU64(a.nonce), x, PutU64(b.nonce), y);
    PutU64Injective(a.balance, b.balance);
    PutU64Injective(a.nonce, b.nonce);
  }

  lemma EntryLayout(k: Text, a: Account, x: Bytes)
    ensures Entry(k, a) + x == Count(|k|) + (k + (PutU64(a.balance) + (PutU64(a.nonce) + x)))
  {
  }

  // ---- listings and totals ---------------------------------------------------

  lemma {:induction false} EntriesBind(tag: Bytes, ks: seq<Text>, a: Accounts, js: seq<Text>, b: Accounts)
    requires |ks| == |js| && (forall k :: k in ks ==> k in a && |k| < TWO64) && (forall j :: j in js ==> j in b && |j| < TWO64)
    requires Entries(tag, ks, a) == Entries(tag, js, b)
    ensures ks == js && forall k :: k in ks ==> a[k] == b[k]
    decreases |ks|
  {
    if ks != [] {
      var k, j := ks[0], js[0];
      var x, y := Entries(tag, ks[1..], a), Entries(tag, js[1..], b);
      EntriesHead(tag, ks, a, tag + Entry(k, a[k]), ks[1..]);
      EntriesHead(tag, js, b, tag + Entry(j, b[j]), js[1..]);
      Associative(tag, Entry(k, a[k]), x);
      Associative(tag, Entry(j, b[j]), y);
      Cut(tag, Entry(k, a[k]) + x, tag, Entry(j, b[j]) + y);
      EntryBinds(k, a[k], x, j, b[j], y);
      EntriesBind(tag, ks[1..], a, js[1..], b);
      assert ks == [k] + ks[1..] && js == [j] + js[1..];
    }
  }

  lemma AccountsBind(tag: Bytes, a: Accounts, b: Accounts)
    requires |a| == |b| && (forall k :: k in a ==> |k| < TWO64) && (forall k :: k in b ==> |k| < TWO64)
    requires Entries(tag, Keys(a), a) == Entries(tag, Keys(b), b)
    ensures a == b
  {
    EntriesBind(tag, Keys(a), a, Keys(b), b);
    assert forall k :: k in a <==> k in Keys(a);
    assert forall k :: k in b <==> k in Keys(b);
  }

  lemma TotalsBind(s: State, x: Bytes, t: State, y: Bytes)
    requires |s.accounts| < TWO64 && |t.accounts| < TWO64 && Totals(s) + x == Totals(t) + y
    ensures s.genesisSupply == t.genesisSupply && s.miningIssued == t.miningIssued && s.supply == t.supply
    ensures |s.accounts| == |t.accounts| && x == y
  {
    Regroup(PutU64(s.genesisSupply), PutU64(s.miningIssued), PutU64(s.supply), Count(|s.accounts|), x);
    Regroup(PutU64(t.genesisSupply), PutU64(t.miningIssued), PutU64(t.supply), Count(|t.accounts|), y);
    Cut(PutU64(s.genesisSupply), PutU64(s.miningIssued) + (PutU64(s.supply) + (Count(|s.accounts|) + x)),
        PutU64(t.genesisSupply), PutU64(t.miningIssued) + (PutU64(t.supply) + (Count(|t.accounts|) + y)));
    Cut(PutU64(s.miningIssued), PutU64(s.supply) + (Count(|s.accounts|) + x), PutU64(t.miningIssued), PutU64(t.supply) + (Count(|t.accounts|) + y));
    Cut(PutU64(s.supply), Count(|s.accounts|) + x, PutU64(t.supply), Count(|t.accounts|) + y);
    Cut(Count(|s.accounts|), x, Count(|t.accounts|), y);
    PutU64Injective(s.genesisSupply, t.genesisSupply);
    PutU64Injective(s.miningIssued, t.miningIssued);
    PutU64Injective(s.supply, t.supply);
    CountInjective(|s.accounts|, |t.accounts|);
  }

  // ---- the root --------------------------------------------------------------

  /** What the root is the digest of. */
  ghost function RootText(s: State): Bytes { ROOT_TAG + (Totals(s) + Entries(ACCOUNT_TAG, Keys(s.accounts), s.accounts)) }

  lemma RootIsOfText(c: Crypto, s: State)
    ensures RootOf(c, s) == Hex(c.sha(RootText(s)))
  {
    Associative(ROOT_TAG, Totals(s), Entries(ACCOUNT_TAG, Keys(s.accounts), s.accounts));
  }

  lemma RootTextBinds(s: State, t: State)
    requires Representable(s) && Representable(t) && RootText(s) == RootText(t)
    ensures s == t
  {
    var x, y := Entries(ACCOUNT_TAG, Keys(s.accounts), s.accounts), Entries(ACCOUNT_TAG, Keys(t.accounts), t.accounts);
    Cut(ROOT_TAG, Totals(s) + x, ROOT_TAG, Totals(t) + y);
    TotalsBind(s, x, t, y);
    AccountsBind(ACCOUNT_TAG, s.accounts, t.accounts);
  }

  /** Two different states with one root exhibit two distinct inputs with one digest. */
  lemma StateRootBinds(c: Crypto, s: State, t: State) returns (a: Bytes, b: Bytes)
    requires Representable(s) && Representable(t) && s != t && RootOf(c, s) == RootOf(c, t)
    ensures Merkle.Collides(c, a, b)
  {
    a, b := RootText(s), RootText(t);
    RootIsOfText(c, s);
    RootIsOfText(c, t);
    HexInjective(c.sha(a), c.sha(b));
    if a == b { RootTextBinds(s, t); }
  }

  // ---- what a checkpoint can decode to ---------------------------------------

  predicate Bounded(a: Accounts) { forall k :: k in a ==> |k| <= MAX_FIELD }

  lemma OneMore(acc: Accounts, k: Text, a: Account)
    requires Bounded(acc) && k !in acc && |k| <= MAX_FIELD
    ensures Bounded(acc[k := a]) && |acc[k := a]| == |acc| + 1
  {
    assert acc[k := a].Keys == acc.Keys + {k};
    assert |acc| == |acc.Keys|;
  }

  /** One entry off the front. */
  lemma FirstEntry(n: nat, acc: Accounts, d: Bytes) returns (more: Accounts, r: Bytes)
    requires n > 0 && Bounded(acc) && ReadEntries(n, acc, d).Some?
    ensures Bounded(more) && |more| == |acc| + 1 && ReadEntries(n, acc, d) == ReadEntries(n - 1, more, r)
  {
    var e := ReadEntry(d).value;
    OneMore(acc, e.0, e.1);
    more, r := acc[e.0 := e.1], e.2;
  }

  lemma {:induction false} ReadEntriesWithin(n: nat, acc: Accounts, d: Bytes, total: nat)
    requires Bounded(acc) && ReadEntries(n, acc, d).Some? && total == |acc| + n
    ensures Bounded(ReadEntries(n, acc, d).value.0) && |ReadEntries(n, acc, d).value.0| == total
    decreases n
  {
    if n > 0 {
      var more, r := FirstEntry(n, acc, d);
      ReadEntriesWithin(n - 1, more, r, total);
    }
  }

  lemma DecodedIsRepresentable(c: Crypto, d: Bytes)
    requires Decode(c, d).Some?
    ensures Representable(Decode(c, d).value) && |d| >= 64 && d[|d| - 64..] == RootOf(c, Decode(c, d).value)
  {
    var t := d[|MAGIC|..];
    var (g, m, s, n, r) := ReadTotals(t).value;
    ReadEntriesWithin(n, map[], r, n);
    BodyIsPrefix(d);
  }

  /** What is read last is the end of the bytes. */
  predicate IsTail(x: Bytes, d: Bytes) { |x| <= |d| && x == d[|d| - |x|..] }

  lemma TailOfTail(x: Bytes, y: Bytes, d: Bytes)
    requires IsTail(x, y) && IsTail(y, d)
    ensures IsTail(x, d)
  {
  }

  lemma ReadU64Tail(d: Bytes)
    requires ReadU64(d).Some?
    ensures IsTail(ReadU64(d).value.1, d)
  {
  }

  lemma ReadEntryTail(d: Bytes)
    requires ReadEntry(d).Some?
    ensures IsTail(ReadEntry(d).value.2, d)
  {
    var (n, r) := ReadU64(d).value;
    ReadU64Tail(d);
    var (k, r1) := ReadField(d).value;
    TailOfTail(r1, r, d);
    ReadU64Tail(r1);
    var r2 := ReadU64(r1).value.1;
    TailOfTail(r2, r1, d);
    ReadU64Tail(r2);
    TailOfTail(ReadU64(r2).value.1, r2, d);
  }

  lemma {:induction false} ReadEntriesTail(n: nat, acc: Accounts, d: Bytes)
    requires ReadEntries(n, acc, d).Some?
    ensures IsTail(ReadEntries(n, acc, d).value.1, d)
    decreases n
  {
    if n > 0 {
      var (k, a, r) := ReadEntry(d).value;
      ReadEntryTail(d);
      ReadEntriesTail(n - 1, acc[k := a], r);
      TailOfTail(ReadEntries(n, acc, d).value.1, r, d);
    }
  }

  lemma ReadTotalsTail(d: Bytes)
    requires ReadTotals(d).Some?
    ensures IsTail(ReadTotals(d).value.4, d)
  {
    ReadU64Tail(d);
    var r1 := ReadU64(d).value.1;
    ReadU64Tail(r1);
    var r2 := ReadU64(r1).value.1;
    TailOfTail(r2, r1, d);
    ReadU64Tail(r2);
    var r3 := ReadU64(r2).value.1;
    TailOfTail(r3, r2, d);
    ReadU64Tail(r3);
    TailOfTail(ReadU64(r3).value.1, r3, d);
  }

  lemma BodyIsPrefix(d: Bytes)
    requires ReadBody(d).Some?
    ensures IsTail(ReadBody(d).value.1, d)
  {
    var t := d[|MAGIC|..];
    var (g, m, s, n, r) := ReadTotals(t).value;
    ReadTotalsTail(t);
    TailOfTail(r, t, d);
    ReadEntriesTail(n, map[], r);
    TailOfTail(ReadBody(d).value.1, r, d);
  }

  /** Bytes that end in the root of a state decode to that state or to nothing, or a digest clash is at hand. */
  lemma CheckpointBinds(c: Crypto, d: Bytes, s: State) returns (a: Bytes, b: Bytes)
    requires Representable(s) && |d| >= 64 && d[|d| - 64..] == RootOf(c, s)
    ensures Decode(c, d).None? || Decode(c, d) == Some(s) || Merkle.Collides(c, a, b)
  {
    a, b := [], [];
    if Decode(c, d).Some? && Decode(c, d).value != s {
      DecodedIsRepresentable(c, d);
      a, b := StateRootBinds(c, Decode(c, d).value, s);
    }
  }

  // ---- the bytes of a checkpoint ---------------------------------------------

  /** The bytes of entry `i` in a listing of wallets. */
  predicate HoldsEntry(b: Bytes, i: nat, e: Bytes) { 67 * i + 67 <= |b| && b[67 * i..67 * i + 67] == e }

  lemma HoldsLater(e: Bytes, rest: Bytes, i: nat, x: Bytes)
    requires |e| == 67 && HoldsEntry(rest, i, x)
    ensures HoldsEntry(e + rest, i + 1, x)
  {
    LaterSlice(e, rest, 67 * i, 67 * i + 67);
  }

  lemma {:induction false} EntryAt(keys: seq<Text>, a: Accounts, i: nat)
    requires (forall k :: k in keys ==> k in a && |k| == 43) && i < |keys|
    ensures HoldsEntry(Entries([], keys, a), i, Entry(keys[i], a[keys[i]]))
    decreases |keys|
  {
    var e := Entry(keys[0], a[keys[0]]);
    EntryFields(keys[0], a[keys[0]]);
    assert [] + e == e;
    EntriesHead([], keys, a, e, keys[1..]);
    if i == 0 {
      FrontBack(e, Entries([], keys[1..], a));
    } else {
      EntryAt(keys[1..], a, i - 1);
      HoldsLater(e, Entries([], keys[1..], a), i - 1, Entry(keys[i], a[keys[i]]));
    }
  }

  lemma LaterSlice(e: Bytes, rest: Bytes, lo: nat, hi: nat)
    requires lo <= hi <= |rest|
    ensures (e + rest)[|e| + lo..|e| + hi] == rest[lo..hi]
  {
  }

  lemma EntryFields(k: Text, a: Account)
    requires |k| == 43
    ensures var e := Entry(k, a);
            |e| == 67 && e[..8] == PutU64(43) && e[8..51] == k && e[51..59] == PutU64(a.balance) && e[59..67] == PutU64(a.nonce)
  {
    CountExact(43);
  }

  lemma HeadFields(s: State, rest: Bytes)
    requires |s.accounts| < TWO64
    ensures var d := (MAGIC + Totals(s)) + rest;
            && |MAGIC + Totals(s)| == 42 && d[..10] == [83, 89, 74, 83, 84, 65, 84, 69, 49, 1]
            && d[10..18] == PutU64(s.genesisSupply) && d[18..26] == PutU64(s.miningIssued) && d[26..34] == PutU64(s.supply)
            && d[34..42] == PutU64(|s.accounts|) && d[42..] == rest
  {
    CountExact(|s.accounts|);
    assert MAGIC == [83, 89, 74, 83, 84, 65, 84, 69, 49, 1];
    FourFields(MAGIC, PutU64(s.genesisSupply), PutU64(s.miningIssued), PutU64(s.supply), PutU64(|s.accounts|), rest);
  }

  lemma FourFields(magic: Bytes, g: Bytes, m: Bytes, u: Bytes, n: Bytes, rest: Bytes)
    requires |magic| == 10 && |g| == 8 && |m| == 8 && |u| == 8 && |n| == 8
    ensures var d := (magic + (g + m + u + n)) + rest;
            d[..10] == magic && d[10..18] == g && d[18..26] == m && d[26..34] == u && d[34..42] == n && d[42..] == rest
  {
    var d := (magic + (g + m + u + n)) + rest;
    Associative(magic, g + m + u + n, rest);
    Regroup(g, m, u, n, rest);
    assert d[0..] == d;
    Peel(d, 0, magic, g + (m + (u + (n + rest))));
    Peel(d, 10, g, m + (u + (n + rest)));
    Peel(d, 18, m, u + (n + rest));
    Peel(d, 26, u, n + rest);
    Peel(d, 34, n, rest);
  }

  /** One field off the bytes from `at` on. */
  lemma Peel(d: Bytes, at: nat, field: Bytes, rest: Bytes)
    requires at <= |d| && d[at..] == field + rest
    ensures at + |field| <= |d| && d[at..at + |field|] == field && d[at + |field|..] == rest
  {
    assert |d| == at + |field| + |rest|;
    assert d[at..at + |field|] == d[at..][..|field|] && d[at + |field|..] == d[at..][|field|..];
    FrontBack(field, rest);
  }

  /**
   * "SYJSTATE1" and a version, the totals, the number of accounts, then for each account in key order its
   * counted address, balance and nonce, and last the root; all numbers in eight bytes, most significant first.
   */
  lemma CheckpointLayout(c: Crypto, s: State, i: nat)
    requires (forall k :: k in s.accounts ==> |k| == 43) && i < |s.accounts| < TWO64
    ensures var d, k := Encode(c, s), Order.Ascending(s.accounts.Keys)[i];
            && |d| == 106 + 67 * |s.accounts| && d[..10] == [83, 89, 74, 83, 84, 65, 84, 69, 49, 1]
            && d[10..18] == PutU64(s.genesisSupply) && d[18..26] == PutU64(s.miningIssued) && d[26..34] == PutU64(s.supply)
            && d[34..42] == PutU64(|s.accounts|)
            && k in s.accounts
            && d[42 + 67 * i..50 + 67 * i] == PutU64(43) && d[50 + 67 * i..93 + 67 * i] == k
            && d[93 + 67 * i..101 + 67 * i] == PutU64(s.accounts[k].balance) && d[101 + 67 * i..109 + 67 * i] == PutU64(s.accounts[k].nonce)
            && d[42 + 67 * |s.accounts|..] == RootOf(c, s)
  {
    var keys := Keys(s.accounts);
    var entries := Entries([], keys, s.accounts);
    var k := keys[i];
    assert k in keys;
    CheckpointSize(c, s);
    Associative(MAGIC + Totals(s), entries, RootOf(c, s));
    HeadFields(s, entries + RootOf(c, s));
    EntriesLength(keys, s.accounts);
    EntryAt(keys, s.accounts, i);
    EntryFields(k, s.accounts[k]);
    var d := Encode(c, s);
    assert d == (MAGIC + Totals(s)) + (entries + RootOf(c, s));
    assert |entries| == 67 * |s.accounts| && |keys| == |s.accounts|;
    EntrySlices(d, entries, RootOf(c, s), i, Entry(k, s.accounts[k]));
  }

  lemma EntrySlices(d: Bytes, entries: Bytes, root: Bytes, i: nat, e: Bytes)
    requires |d| >= 42 && d[42..] == entries + root && |e| == 67 && HoldsEntry(entries, i, e)
    ensures 109 + 67 * i <= |d|
    ensures d[42 + 67 * i..50 + 67 * i] == e[..8] && d[50 + 67 * i..93 + 67 * i] == e[8..51]
    ensures d[93 + 67 * i..101 + 67 * i] == e[51..59] && d[101 + 67 * i..109 + 67 * i] == e[59..67]
    ensures d[42 + |entries|..] == root
  {
    var x := 67 * i;
    assert d[42 + x..109 + x] == e by {
      assert d[42 + x..109 + x] == d[42..][x..x + 67] == entries[x..x + 67];
    }
    assert d[42 + x..109 + x][..8] == d[42 + x..50 + x] && d[42 + x..109 + x][8..51] == d[50 + x..93 + x];
    assert d[42 + x..109 + x][51..59] == d[93 + x..101 + x] && d[42 + x..109 + x][59..67] == d[101 + x..109 + x];
  }
}
