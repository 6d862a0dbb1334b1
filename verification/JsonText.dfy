/** What canonical JSON looks like: printable ASCII, the shortest escapes, members in key order. (internal/canonicaljson/canonical.go) */
module JsonText {
  import opened Base
  import opened CanonicalJson
  import Order
  import Utf8

  // ---- strings -------------------------------------------------------------

  predicate Printable(b: Bytes) { forall i :: 0 <= i < |b| ==> 0x20 <= b[i] <= 0x7E }

  /** Two characters for quote, backslash and five controls, one for other printable runes, six or twelve otherwise. */
  lemma EscapeLength(r: Rune)
    ensures Printable(Escape(r))
    ensures |Escape(r)| == if r in {8, 9, 10, 12, 13, 34, 92} then 2 else if 0x20 <= r <= 0x7E then 1 else if r < 0x10000 then 6 else 12
  {
  }

  lemma PrintableJoin(a: Bytes, b: Bytes)
    ensures Printable(a + b) <==> Printable(a) && Printable(b)
  {
    assert forall i :: 0 <= i < |a| ==> (a + b)[i] == a[i];
    assert forall i :: 0 <= i < |b| ==> (a + b)[|a| + i] == b[i];
  }

  lemma {:induction false} EscapesArePrintable(rs: seq<Rune>)
    ensures Printable(EscapeAll(rs))
    decreases |rs|
  {
    if rs != [] {
      EscapesArePrintable(rs[1..]);
      EscapeLength(rs[0]);
      PrintableJoin(Escape(rs[0]), EscapeAll(rs[1..]));
    }
  }

  lemma QuotedIsPrintable(t: Text)
    ensures Printable(Quoted(t))
  {
    EscapesArePrintable(Utf8.Runes(t));
    PrintableJoin(EscapeAll(Utf8.Runes(t)), [QUOTE]);
    PrintableJoin([QUOTE], EscapeAll(Utf8.Runes(t)) + [QUOTE]);
  }

  predicate NothingToEscape(t: Text) { forall i :: 0 <= i < |t| ==> 0x20 <= t[i] <= 0x7E && t[i] != 34 && t[i] != 92 }

  lemma {:induction false} PlainEscapes(t: Text)
    requires NothingToEscape(t)
    ensures EscapeAll(Utf8.Runes(t)) == t
    decreases |t|
  {
    if t != [] {
      PlainEscapes(t[1..]);
      assert Utf8.Runes(t) == [t[0]] + Utf8.Runes(t[1..]);
      HeadTail<Rune>(t[0], Utf8.Runes(t[1..]));
      assert Escape(t[0]) == [t[0]];
      assert t == [t[0]] + t[1..];
    }
  }

  /** Plain text stands between its quotes as it is. */
  lemma PlainIsQuoted(t: Text)
    requires NothingToEscape(t)
    ensures Quoted(t) == [34] + (t + [34])
  {
    PlainEscapes(t);
  }

  // ---- numbers -------------------------------------------------------------

  lemma {:induction false} DecimalDigits(n: nat)
    ensures forall i :: 0 <= i < |Decimal(n)| ==> 48 <= Decimal(n)[i] <= 57
    ensures n > 0 ==> Decimal(n)[0] != 48
    ensures n == 0 ==> Decimal(n) == [48]
  {
    if n >= 10 { DecimalDigits(n / 10); }
  }

  /** An optional minus and decimal digits, no leading zero, no negative zero. */
  lemma IntegerShape(i: int)
    ensures Printable(Integer(i))
    ensures Integer(i)[0] == 45 <==> i < 0
    ensures i != 0 ==> (if i < 0 then Integer(i)[1] else Integer(i)[0]) != 48
  {
    DecimalDigits(if i < 0 then -i else i);
  }

  // ---- objects -------------------------------------------------------------

  predicate Rising(keys: seq<Text>) {
    forall i, j :: 0 <= i < j < |keys| ==> Order.LexLess(keys[i], keys[j])
  }

  lemma RisingTail(keys: seq<Text>)
    requires keys != [] && Rising(keys)
    ensures Rising(keys[1..]) && keys[0] !in keys[1..] && forall k :: k in keys[1..] ==> Order.LexLess(keys[0], k)
  {
    var tail := keys[1..];
    assert forall i :: 0 <= i < |tail| ==> tail[i] == keys[i + 1];
    Order.LexAsymmetric(keys[0], keys[0]);
  }

  lemma FirstIsLeast(s: set<Text>, keys: seq<Text>)
    requires keys != [] && Rising(keys) && forall k :: k in keys <==> k in s
    ensures Order.IsLeast(keys[0], s) && forall k :: k in keys[1..] <==> k in s - {keys[0]}
  {
    RisingTail(keys);
    assert keys[0] in keys;
    forall k | k in s && k != keys[0]
      ensures k in keys[1..]
    {
      var i :| 0 <= i < |keys| && keys[i] == k;
      assert keys[1..][i - 1] == k;
    }
    forall k | k in keys[1..]
      ensures k in s
    {
      var i :| 0 <= i < |keys[1..]| && keys[1..][i] == k;
      assert keys[i + 1] == k;
    }
  }

  /** There is only one ascending listing of a set. */
  lemma {:induction false} ListingUnique(s: set<Text>, keys: seq<Text>)
    requires Rising(keys) && forall k :: k in keys <==> k in s
    ensures keys == Order.Ascending(s)
    decreases |keys|
  {
    if keys == [] {
      assert s == {};
    } else {
      assert keys[0] in keys;
      var k := Order.AscendingHead(s);
      RisingTail(keys);
      FirstIsLeast(s, keys);
      Order.LeastUnique(keys[0], k, s);
      ListingUnique(s - {k}, keys[1..]);
      assert keys == [keys[0]] + keys[1..];
    }
  }

  /** Members under the listed keys with commas between them. */
  ghost function Joined(v: Json, keys: seq<Text>): Bytes
    requires v.Obj? && forall k :: k in keys ==> k in v.m
    decreases |keys|
  {
    if keys == [] then []
    else
      var rest := Joined(v, keys[..|keys| - 1]);
      (if |keys| == 1 then [] else rest + [44]) + ((Quoted(keys[|keys| - 1]) + [58]) + Encode(v.m[keys[|keys| - 1]]))
  }

  lemma {:induction false} JoinedHead(v: Json, keys: seq<Text>)
    requires v.Obj? && |keys| > 1 && forall k :: k in keys ==> k in v.m
    ensures Joined(v, keys) == ((Quoted(keys[0]) + [58]) + Encode(v.m[keys[0]])) + ([44] + Joined(v, keys[1..]))
    decreases |keys|
  {
    var init, tail := keys[..|keys| - 1], keys[1..];
    var first, last := (Quoted(keys[0]) + [58]) + Encode(v.m[keys[0]]), (Quoted(keys[|keys| - 1]) + [58]) + Encode(v.m[keys[|keys| - 1]]);
    assert tail[|tail| - 1] == keys[|keys| - 1] && tail[..|tail| - 1] == init[1..];
    if |keys| == 2 {
      assert Joined(v, init) == first by { assert init[..0] == [] && init[0] == keys[0]; }
      assert Joined(v, tail) == last by { assert tail[..0] == []; }
      Associative(first, [44], last);
    } else {
      JoinedHead(v, init);
      Rejoin(first, Joined(v, init[1..]), last);
    }
  }

  lemma Rejoin(first: Bytes, middle: Bytes, last: Bytes)
    ensures ((first + ([44] + middle)) + [44]) + last == first + ([44] + ((middle + [44]) + last))
  {
  }

  lemma {:induction false} MembersAreJoined(v: Json, keys: seq<Text>)
    requires v.Obj? && keys != [] && forall k :: k in keys ==> k in v.m
    ensures Members(v, keys) == Joined(v, keys) + [125]
    decreases |keys|
  {
    var first := (Quoted(keys[0]) + [58]) + Encode(v.m[keys[0]]);
    if |keys| == 1 {
      assert Joined(v, keys) == first by { assert keys[..0] == []; }
      Associative(Quoted(keys[0]) + [58], Encode(v.m[keys[0]]), [125]);
    } else {
      MembersAreJoined(v, keys[1..]);
      JoinedHead(v, keys);
      Regroup(Quoted(keys[0]) + [58], Encode(v.m[keys[0]]), Joined(v, keys[1..]));
    }
  }

  lemma Regroup(name: Bytes, value: Bytes, rest: Bytes)
    ensures name + (value + ([44] + (rest + [125]))) == ((name + value) + ([44] + rest)) + [125]
  {
  }

  /** An object is its members in ascending key order, name, colon, value, with commas between. */
  lemma ObjectInKeyOrder(m: map<Text, Json>, keys: seq<Text>)
    requires Rising(keys) && forall k :: k in keys <==> k in m
    ensures Encode(Obj(m)) == [123] + (Joined(Obj(m), keys) + [125])
  {
    var v := Obj(m);
    ListingUnique(m.Keys, keys);
    if m == map[] {
      assert keys == [];
      assert Joined(v, keys) + [125] == [125];
    } else {
      var k :| k in m;
      MembersAreJoined(v, keys);
    }
  }

  // ---- arrays --------------------------------------------------------------

  /** The first `n` items with commas between them. */
  ghost function JoinedItems(xs: seq<Json>, n: nat): Bytes
    requires n <= |xs|
  {
    if n == 0 then [] else (if n == 1 then [] else JoinedItems(xs, n - 1) + [44]) + Encode(xs[n - 1])
  }

  lemma {:induction false} ItemsAreJoined(v: Json, i: nat)
    requires v.Arr? && i < |v.xs|
    ensures (if i == 0 then [] else JoinedItems(v.xs, i) + [44]) + Items(v, i) == JoinedItems(v.xs, |v.xs|) + [93]
    decreases |v.xs| - i
  {
    var before := if i == 0 then [] else JoinedItems(v.xs, i) + [44];
    if i + 1 == |v.xs| {
      Associative(before, Encode(v.xs[i]), [93]);
    } else {
      ItemsAreJoined(v, i + 1);
      NextItem(before, Encode(v.xs[i]), Items(v, i + 1));
    }
  }

  lemma NextItem(before: Bytes, item: Bytes, rest: Bytes)
    ensures before + (item + ([44] + rest)) == ((before + item) + [44]) + rest
  {
  }

  /** An array is its items in order with commas between. */
  lemma ArrayInOrder(xs: seq<Json>)
    ensures Encode(Arr(xs)) == [91] + (JoinedItems(xs, |xs|) + [93])
  {
    if xs == [] {
      assert JoinedItems(xs, |xs|) + [93] == [93];
    } else {
      ItemsAreJoined(Arr(xs), 0);
      assert [] + Items(Arr(xs), 0) == Items(Arr(xs), 0);
    }
  }

  /** Canonical text is printable ASCII throughout. */
  lemma {:induction false} CanonicalIsPrintable(v: Json)
    ensures Printable(Encode(v))
    decreases v, 2, 0
  {
    match v
    case Null =>
    case Bool(b) =>
    case Num(i) => IntegerShape(i);
    case Whole(i) =>
      IntegerShape(i);
      PrintableJoin(Integer(i), TENTHS);
    case Str(s) => QuotedIsPrintable(s);
    case Arr(xs) => if xs != [] {
        ItemsPrintable(v, 0);
        PrintableJoin([OPEN], Items(v, 0));
      }
    case Obj(m) => if m != map[] {
        MembersPrintable(v, Order.Ascending(m.Keys));
        PrintableJoin([LEFT], Members(v, Order.Ascending(m.Keys)));
      }
  }

  lemma {:induction false} ItemsPrintable(v: Json, i: nat)
    requires v.Arr? && i < |v.xs|
    ensures Printable(Items(v, i))
    decreases v, 1, |v.xs| - i
  {
    CanonicalIsPrintable(v.xs[i]);
    if i + 1 == |v.xs| {
      PrintableJoin(Encode(v.xs[i]), [CLOSE]);
    } else {
      ItemsPrintable(v, i + 1);
      PrintableJoin([COMMA], Items(v, i + 1));
      PrintableJoin(Encode(v.xs[i]), [COMMA] + Items(v, i + 1));
    }
  }

  lemma {:induction false} MembersPrintable(v: Json, keys: seq<Text>)
    requires v.Obj? && keys != [] && forall k :: k in keys ==> k in v.m
    ensures Printable(Members(v, keys))
    decreases v, 1, |keys|
  {
    var k := keys[0];
    var after := if |keys| == 1 then [RIGHT] else [COMMA] + Members(v, keys[1..]);
    QuotedIsPrintable(k);
    CanonicalIsPrintable(v.m[k]);
    if |keys| > 1 {
      MembersPrintable(v, keys[1..]);
      PrintableJoin([COMMA], Members(v, keys[1..]));
    }
    PrintableJoin(Quoted(k), [COLON]);
    PrintableJoin(Encode(v.m[k]), after);
    PrintableJoin(Quoted(k) + [COLON], Encode(v.m[k]) + after);
  }
}
