/**
 * Canonical JSON for values whose floats are whole numbers, and a parser that reads every value
 * back, strings by the rules of section 7 of RFC 8259. (internal/canonicaljson/canonical.go)
 */
module CanonicalJson {
  import opened Base
  import Protocol
  import Order
  import Utf8

  type Rune = Utf8.Rune

  /** `Whole` is a float with a whole value. */
  datatype Json = Null | Bool(b: bool) | Num(i: int) | Whole(i: int) | Str(s: Text) | Arr(xs: seq<Json>) | Obj(m: map<Text, Json>)

  const QUOTE: byte := 34
  const COMMA: byte := 44
  const MINUS: byte := 45
  const POINT: byte := 46
  const COLON: byte := 58
  const OPEN: byte := 91
  const BACKSLASH: byte := 92
  const CLOSE: byte := 93
  const LETTER_F: byte := 102
  const LETTER_N: byte := 110
  const LETTER_T: byte := 116
  const LETTER_U: byte := 117
  const LEFT: byte := 123
  const RIGHT: byte := 125
  const TENTHS: Bytes := [POINT, 48]  // what follows a whole float
  const NULL: Bytes := [LETTER_N, LETTER_U, 108, 108]
  const TRUE: Bytes := [LETTER_T, 114, LETTER_U, 101]
  const FALSE: Bytes := [LETTER_F, 97, 108, 115, 101]

  // ---- strings -------------------------------------------------------------

  type Unit = x: int | 0 <= x < 0x10000

  /** `writeU4`. */
  function U4(u: Unit): (b: Bytes)
    ensures |b| == 6
  {
    [BACKSLASH, LETTER_U, Protocol.HexDigit(u / 4096), Protocol.HexDigit(u / 256 % 16), Protocol.HexDigit(u / 16 % 16), Protocol.HexDigit(u % 16)]
  }

  /** The surrogate pair of a rune above the basic plane. */
  function High(r: Rune): Unit
    requires r > 0xFFFF
  { 0xD800 + (r - 0x10000) / 1024 }

  function Low(r: Rune): Unit
    requires r > 0xFFFF
  { 0xDC00 + (r - 0x10000) % 1024 }

  /** The letter of a two-character escape. */
  function Short(r: Rune): Option<byte> {
    if r == 34 then Some(34)
    else if r == 92 then Some(92)
    else if r == 8 then Some(98)
    else if r == 12 then Some(102)
    else if r == 10 then Some(110)
    else if r == 13 then Some(114)
    else if r == 9 then Some(116)
    else None
  }

  function Escape(r: Rune): (b: Bytes)
    ensures |b| >= 1
  {
    match Short(r)
    case Some(c) => [BACKSLASH, c]
    case None =>
      if 0x20 <= r <= 0x7E then [r]
      else if r <= 0xFFFF then U4(r)
      else U4(High(r)) + U4(Low(r))
  }

  function EscapeAll(rs: seq<Rune>): Bytes
    decreases |rs|
  {
    if rs == [] then [] else Escape(rs[0]) + EscapeAll(rs[1..])
  }

  /** `encodeString`. */
  function Quoted(t: Text): Bytes { [QUOTE] + (EscapeAll(Utf8.Runes(t)) + [QUOTE]) }

  // ---- integers ------------------------------------------------------------

  function Decimal(n: nat): (b: Bytes)
    ensures |b| >= 1
  {
    if n < 10 then [48 + n] else Decimal(n / 10) + [48 + n % 10]
  }

  function Integer(i: int): Bytes { if i < 0 then [MINUS] + Decimal(-i) else Decimal(i) }

  // ---- values --------------------------------------------------------------

  ghost function Encode(v: Json): (b: Bytes)
    decreases v, 2, 0
  {
    match v
    case Null => NULL
    case Bool(x) => if x then TRUE else FALSE
    case Num(i) => Integer(i)
    case Whole(i) => Integer(i) + TENTHS
    case Str(s) => Quoted(s)
    case Arr(xs) => [OPEN] + (if xs == [] then [CLOSE] else Items(v, 0))
    case Obj(m) => [LEFT] + (if m == map[] then [RIGHT] else Members(v, Order.Ascending(m.Keys)))
  }

  /** The items from position `i` on, with the closing bracket. */
  ghost function Items(v: Json, i: nat): Bytes
    requires v.Arr? && i < |v.xs|
    decreases v, 1, |v.xs| - i
  {
    Encode(v.xs[i]) + (if i + 1 == |v.xs| then [CLOSE] else [COMMA] + Items(v, i + 1))
  }

  /** The members under the listed keys, with the closing brace. */
  ghost function Members(v: Json, keys: seq<Text>): Bytes
    requires v.Obj? && keys != [] && forall k :: k in keys ==> k in v.m
    decreases v, 1, |keys|
  {
    (Quoted(keys[0]) + [COLON]) + (Encode(v.m[keys[0]]) + (if |keys| == 1 then [RIGHT] else [COMMA] + Members(v, keys[1..])))
  }

  // ---- the parser ----------------------------------------------------------

  function HexValue(c: byte): Option<int> {
    if 48 <= c <= 57 then Some(c - 48) else if 97 <= c <= 102 then Some(c - 87) else None
  }

  /** Four hexadecimal digits. */
  function ReadUnit(d: Bytes): (r: Option<(Unit, Bytes)>)
    ensures r.Some? ==> |r.value.1| < |d|
  {
    if |d| < 4 then None
    else
      var a :- HexValue(d[0]);
      var b :- HexValue(d[1]);
      var c :- HexValue(d[2]);
      var e :- HexValue(d[3]);
      Some((a * 4096 + b * 256 + c * 16 + e, d[4..]))
  }

  function Unshort(c: byte): Option<Rune> {
    if c == 34 then Some(34)
    else if c == 92 then Some(92)
    else if c == 98 then Some(8)
    else if c == 102 then Some(12)
    else if c == 110 then Some(10)
    else if c == 114 then Some(13)
    else if c == 116 then Some(9)
    else None
  }

  /** The low half of a surrogate pair. */
  function ReadLow(high: Unit, d: Bytes): (r: Option<(Rune, Bytes)>)
    requires 0xD800 <= high < 0xDC00
    ensures r.Some? ==> |r.value.1| < |d|
  {
    if |d| < 2 || d[0] != BACKSLASH || d[1] != LETTER_U then None
    else
      var (low, rest) :- ReadUnit(d[2..]);
      if 0xDC00 <= low < 0xE000 then Some((0x10000 + (high - 0xD800) * 1024 + (low - 0xDC00), rest)) else None
  }

  /** One character of a string. */
  function ReadChar(d: Bytes): (r: Option<(Rune, Bytes)>)
    requires d != []
    ensures r.Some? ==> |r.value.1| < |d|
  {
    if d[0] != BACKSLASH then (if 0x20 <= d[0] <= 0x7E then Some((d[0], d[1..])) else None)
    else if |d| < 2 then None
    else if d[1] != LETTER_U then
      var r :- Unshort(d[1]);
      Some((r, d[2..]))
    else
      var (u, rest) :- ReadUnit(d[2..]);
      if 0xD800 <= u < 0xDC00 then ReadLow(u, rest)
      else if 0xDC00 <= u < 0xE000 then None
      else Some((u, rest))
  }

  /** Characters up to the closing quote. */
  function ReadChars(d: Bytes): (r: Option<(seq<Rune>, Bytes)>)
    ensures r.Some? ==> |r.value.1| < |d|
    decreases |d|
  {
    if d == [] then None
    else if d[0] == QUOTE then Some(([], d[1..]))
    else
      var (c, rest) :- ReadChar(d);
      var (cs, end) :- ReadChars(rest);
      Some(([c] + cs, end))
  }

  function ReadString(d: Bytes): (r: Option<(Text, Bytes)>)
    ensures r.Some? ==> |r.value.1| < |d|
  {
    if d == [] || d[0] != QUOTE then None
    else
      var (rs, rest) :- ReadChars(d[1..]);
      Some((Utf8.Encode(rs), rest))
  }

  predicate IsDigit(c: byte) { 48 <= c <= 57 }

  /** All leading digits, appended to an accumulated number. */
  function ReadDigits(acc: nat, d: Bytes): (r: (nat, Bytes))
    ensures |r.1| <= |d| && (d != [] && IsDigit(d[0]) ==> |r.1| < |d|)
    decreases |d|
  {
    if d == [] || !IsDigit(d[0]) then (acc, d)
    else
      var c: int := d[0];
      ReadDigits(acc * 10 + (c - 48), d[1..])
  }

  function ReadNat(d: Bytes): (r: Option<(nat, Bytes)>)
    ensures r.Some? ==> |r.value.1| < |d|
  {
    if d == [] || !IsDigit(d[0]) then None else Some(ReadDigits(0, d))
  }

  function ReadWord(word: Bytes, v: Json, d: Bytes): (r: Option<(Json, Bytes)>)
    requires word != []
    ensures r.Some? ==> |r.value.1| < |d|
  {
    if |word| <= |d| && d[..|word|] == word then Some((v, d[|word|..])) else None
  }

  function Parse(d: Bytes): (r: Option<(Json, Bytes)>)
    ensures r.Some? ==> |r.value.1| < |d|
    decreases |d|, 1
  {
    if d == [] then None
    else if d[0] == LETTER_N then ReadWord(NULL, Null, d)
    else if d[0] == LETTER_T then ReadWord(TRUE, Bool(true), d)
    else if d[0] == LETTER_F then ReadWord(FALSE, Bool(false), d)
    else if d[0] == QUOTE then
      var (t, rest) :- ReadString(d);
      Some((Str(t), rest))
    else if d[0] == OPEN then
      if |d| >= 2 && d[1] == CLOSE then Some((Arr([]), d[2..]))
      else
        var (xs, rest) :- ParseItems(d[1..]);
        Some((Arr(xs), rest))
    else if d[0] == LEFT then
      if |d| >= 2 && d[1] == RIGHT then Some((Obj(map[]), d[2..]))
      else
        var (m, rest) :- ParseMembers(d[1..]);
        Some((Obj(m), rest))
    else if d[0] == MINUS then
      var (n, rest) :- ReadNat(d[1..]);
      var i: int := n;
      Some(Number(-i, rest))
    else
      var (n, rest) :- ReadNat(d);
      Some(Number(n, rest))
  }

  /** An integer, or a whole float if a point and a zero follow. */
  function Number(i: int, rest: Bytes): (r: (Json, Bytes))
    ensures |r.1| <= |rest|
  {
    if |rest| >= 2 && rest[..2] == TENTHS then (Whole(i), rest[2..]) else (Num(i), rest)
  }

  function ParseItems(d: Bytes): (r: Option<(seq<Json>, Bytes)>)
    ensures r.Some? ==> |r.value.1| < |d|
    decreases |d|, 2
  {
    var (v, rest) :- Parse(d);
    if rest == [] then None
    else if rest[0] == CLOSE then Some(([v], rest[1..]))
    else if rest[0] != COMMA then None
    else
      var (vs, end) :- ParseItems(rest[1..]);
      Some(([v] + vs, end))
  }

  function ParseMembers(d: Bytes): (r: Option<(map<Text, Json>, Bytes)>)
    ensures r.Some? ==> |r.value.1| < |d|
    decreases |d|, 2
  {
    var (k, afterKey) :- ReadString(d);
    if afterKey == [] || afterKey[0] != COLON then None
    else
      var (v, rest) :- Parse(afterKey[1..]);
      if rest == [] then None
      else if rest[0] == RIGHT then Some((map[k := v], rest[1..]))
      else if rest[0] != COMMA then None
      else
        var (m, end) :- ParseMembers(rest[1..]);
        if k in m then None else Some((m[k := v], end))
  }

  // ---- strings are read back -----------------------------------------------

  lemma UnitRead(u: Unit, rest: Bytes)
    ensures ReadUnit(U4(u)[2..] + rest) == Some((u, rest))
  {
    var d := U4(u)[2..] + rest;
    assert d[4..] == rest;
    assert u / 16 == (u / 256) * 16 + u / 16 % 16 && u / 256 == (u / 4096) * 16 + u / 256 % 16;
  }

  lemma ShortRead(r: Rune, rest: Bytes)
    requires Short(r).Some?
    ensures ReadChar([BACKSLASH, Short(r).value] + rest) == Some((r, rest))
  {
    var d := [BACKSLASH, Short(r).value] + rest;
    assert d[0] == BACKSLASH && d[1] == Short(r).value && d[2..] == rest;
    assert Unshort(Short(r).value) == Some(r);
  }

  lemma CharRead(r: Rune, rest: Bytes)
    ensures ReadChar(Escape(r) + rest) == Some((r, rest)) && (Escape(r) + rest)[0] != QUOTE
  {
    var d := Escape(r) + rest;
    if Short(r).Some? {
      ShortRead(r, rest);
    } else if 0x20 <= r <= 0x7E {
      assert d[1..] == rest;
    } else if r <= 0xFFFF {
      BasicRead(r, rest);
    } else {
      PairRead(r, rest);
    }
  }

  lemma BasicRead(r: Rune, rest: Bytes)
    requires r <= 0xFFFF
    ensures ReadChar(U4(r) + rest) == Some((r, rest))
  {
    var d := U4(r) + rest;
    UnitRead(r, rest);
    assert d[2..] == U4(r)[2..] + rest;
    assert d[0] == BACKSLASH && d[1] == LETTER_U;
  }

  lemma PairRead(r: Rune, rest: Bytes)
    requires r > 0xFFFF
    ensures ReadChar((U4(High(r)) + U4(Low(r))) + rest) == Some((r, rest))
  {
    var d := (U4(High(r)) + U4(Low(r))) + rest;
    var low := U4(Low(r)) + rest;
    UnitRead(High(r), low);
    UnitRead(Low(r), rest);
    assert d[2..] == U4(High(r))[2..] + low;
    assert low[2..] == U4(Low(r))[2..] + rest;
    assert ReadLow(High(r), low) == Some((r, rest));
  }

  lemma CharsGoOn(d: Bytes, r: Rune, more: Bytes, rs: seq<Rune>, end: Bytes)
    requires d != [] && d[0] != QUOTE && ReadChar(d) == Some((r, more)) && ReadChars(more) == Some((rs, end))
    ensures ReadChars(d) == Some(([r] + rs, end))
  {
  }

  /** Escaping, surrogate pairs included, is undone exactly. */
  lemma {:induction false} CharsRead(rs: seq<Rune>, rest: Bytes)
    ensures ReadChars(EscapeAll(rs) + ([QUOTE] + rest)) == Some((rs, rest))
    decreases |rs|
  {
    var end := [QUOTE] + rest;
    if rs == [] {
      assert [] + end == end && end[1..] == rest;
    } else {
      CharsRead(rs[1..], rest);
      CharRead(rs[0], EscapeAll(rs[1..]) + end);
      Associative(Escape(rs[0]), EscapeAll(rs[1..]), end);
      CharsGoOn(EscapeAll(rs) + end, rs[0], EscapeAll(rs[1..]) + end, rs[1..], rest);
      assert rs == [rs[0]] + rs[1..];
    }
  }

  /** A text as it is read back: an ill-formed byte has become the replacement rune. */
  function Replaced(t: Text): Text { Utf8.Encode(Utf8.Runes(t)) }

  lemma StringRead(t: Text, rest: Bytes)
    ensures ReadString(Quoted(t) + rest) == Some((Replaced(t), rest)) && (Quoted(t) + rest)[0] == QUOTE
  {
    CharsRead(Utf8.Runes(t), rest);
    Between(EscapeAll(Utf8.Runes(t)), rest);
  }

  lemma Between(inner: Bytes, rest: Bytes)
    ensures var d := ([QUOTE] + (inner + [QUOTE])) + rest; d[0] == QUOTE && d[1..] == inner + ([QUOTE] + rest)
  {
  }

  // ---- numbers are read back -----------------------------------------------

  /** What follows a number does not go on with it. */
  predicate Stops(rest: Bytes) { rest == [] || (!IsDigit(rest[0]) && rest[0] != POINT) }

  predicate EndsDigits(rest: Bytes) { rest == [] || !IsDigit(rest[0]) }

  function Push(acc: nat, n: nat): nat { if n < 10 then acc * 10 + n else Push(acc, n / 10) * 10 + n % 10 }

  lemma {:induction false} PushZero(n: nat)
    ensures Push(0, n) == n
  {
    if n >= 10 { PushZero(n / 10); }
  }

  lemma {:induction false} DigitsRead(acc: nat, n: nat, rest: Bytes)
    ensures ReadDigits(acc, Decimal(n) + rest) == ReadDigits(Push(acc, n), rest)
  {
    if n < 10 {
      assert (Decimal(n) + rest)[1..] == rest;
    } else {
      var last: Bytes := [48 + n % 10];
      Associative(Decimal(n / 10), last, rest);
      DigitsRead(acc, n / 10, last + rest);
      assert (last + rest)[1..] == rest;
    }
  }

  lemma {:induction false} FirstDigit(n: nat)
    ensures IsDigit(Decimal(n)[0])
  {
    if n >= 10 { FirstDigit(n / 10); }
  }

  lemma NatRead(n: nat, rest: Bytes)
    requires EndsDigits(rest)
    ensures ReadNat(Decimal(n) + rest) == Some((n, rest)) && IsDigit((Decimal(n) + rest)[0])
  {
    FirstDigit(n);
    DigitsRead(0, n, rest);
    PushZero(n);
  }

  lemma IntegerRead(i: int, rest: Bytes)
    requires EndsDigits(rest)
    ensures Parse(Integer(i) + rest) == Some(Number(i, rest))
  {
    if i < 0 {
      NegativeRead(-i, rest);
    } else {
      NatRead(i, rest);
    }
  }

  lemma NegativeRead(n: nat, rest: Bytes)
    requires n > 0 && EndsDigits(rest)
    ensures Parse(Integer(-1 * n) + rest) == Some(Number(-1 * n, rest))
  {
    var i: int := n;
    NatRead(n, rest);
    assert (Integer(-i) + rest)[1..] == Decimal(n) + rest;
  }

  lemma WholeRead(i: int, rest: Bytes)
    ensures Parse((Integer(i) + TENTHS) + rest) == Some((Whole(i), rest))
  {
    Associative(Integer(i), TENTHS, rest);
    IntegerRead(i, TENTHS + rest);
    assert (TENTHS + rest)[..2] == TENTHS && (TENTHS + rest)[2..] == rest;
  }

  // ---- values are read back ------------------------------------------------

  /** Every string and key is well-formed UTF-8. */
  ghost predicate Proper(v: Json)
    decreases v
  {
    match v
    case Str(s) => Utf8.WellFormed(s)
    case Arr(xs) => forall i :: 0 <= i < |xs| ==> Proper(xs[i])
    case Obj(m) => forall k :: k in m ==> Utf8.WellFormed(k) && Proper(m[k])
    case _ => true
  }

  /** Every key, at any depth, is well-formed UTF-8. */
  ghost predicate Named(v: Json)
    decreases v
  {
    match v
    case Arr(xs) => forall i :: 0 <= i < |xs| ==> Named(xs[i])
    case Obj(m) => forall k :: k in m ==> Utf8.WellFormed(k) && Named(m[k])
    case _ => true
  }

  /** A value as it is read back. */
  ghost function Cleaned(v: Json): Json
    decreases v
  {
    match v
    case Str(s) => Str(Replaced(s))
    case Arr(xs) => Arr(seq(|xs|, i requires 0 <= i < |xs| => Cleaned(xs[i])))
    case Obj(m) => Obj(map k | k in m :: Cleaned(m[k]))
    case _ => v
  }

  lemma {:induction false} ProperIsClean(v: Json)
    requires Proper(v)
    ensures Named(v) && Cleaned(v) == v
    decreases v
  {
    match v
    case Arr(xs) =>
      forall i | 0 <= i < |xs|
        ensures Named(xs[i]) && Cleaned(xs[i]) == xs[i]
      {
        ProperIsClean(xs[i]);
      }
    case Obj(m) =>
      forall k | k in m
        ensures Named(m[k]) && Cleaned(m[k]) == m[k]
      {
        ProperIsClean(m[k]);
      }
    case _ =>
  }

  lemma WordRead(word: Bytes, v: Json, rest: Bytes)
    requires word != []
    ensures ReadWord(word, v, word + rest) == Some((v, rest))
  {
    assert (word + rest)[..|word|] == word && (word + rest)[|word|..] == rest;
  }

  lemma {:induction false} FirstByte(v: Json)
    ensures |Encode(v)| > 0 && Encode(v)[0] != CLOSE && Encode(v)[0] != RIGHT
  {
    match v
    case Num(i) => FirstDigit(if i < 0 then -i else i);
    case Whole(i) => FirstDigit(if i < 0 then -i else i);
    case _ =>
  }

  /** The text of a value, whatever follows, is parsed back to the value, ill-formed text replaced. */
  lemma {:induction false} ParseEncoded(v: Json, rest: Bytes)
    requires Named(v) && Stops(rest)
    ensures Parse(Encode(v) + rest) == Some((Cleaned(v), rest))
    decreases v, 2, 0
  {
    match v
    case Null => WordRead(NULL, v, rest);
    case Bool(b) => WordRead(if b then TRUE else FALSE, v, rest);
    case Num(i) => IntegerRead(i, rest);
    case Whole(i) => WholeRead(i, rest);
    case Str(s) => StringRead(s, rest);
    case Arr(xs) => ParseArray(v, rest);
    case Obj(m) => ParseObject(v, rest);
  }

  lemma {:induction false} ParseArray(v: Json, rest: Bytes)
    requires v.Arr? && Named(v)
    ensures Parse(Encode(v) + rest) == Some((Cleaned(v), rest))
    decreases v, 1, |v.xs| + 1
  {
    var d := Encode(v) + rest;
    if v.xs == [] {
      assert d[2..] == rest;
    } else {
      ParseItemsEncoded(v, 0, rest);
      FirstByte(v.xs[0]);
      assert d[1..] == Items(v, 0) + rest;
      assert Cleaned(v).xs[0..] == Cleaned(v).xs;
    }
  }

  lemma ItemsEnd(d: Bytes, v: Json, rest: Bytes)
    requires Parse(d) == Some((v, [CLOSE] + rest))
    ensures ParseItems(d) == Some(([v], rest))
  {
    HeadTail(CLOSE, rest);
  }

  lemma ItemsGoOn(d: Bytes, v: Json, more: Bytes, vs: seq<Json>, end: Bytes)
    requires Parse(d) == Some((v, [COMMA] + more)) && ParseItems(more) == Some((vs, end))
    ensures ParseItems(d) == Some(([v] + vs, end))
  {
    HeadTail(COMMA, more);
  }

  lemma {:induction false} ParseItemsEncoded(v: Json, i: nat, rest: Bytes)
    requires v.Arr? && i < |v.xs| && Named(v)
    ensures ParseItems(Items(v, i) + rest) == Some((Cleaned(v).xs[i..], rest))
    decreases v, 1, |v.xs| - i
  {
    var read := Cleaned(v).xs;
    if i + 1 == |v.xs| {
      Associative(Encode(v.xs[i]), [CLOSE], rest);
      ParseEncoded(v.xs[i], [CLOSE] + rest);
      ItemsEnd(Items(v, i) + rest, read[i], rest);
      LastDrop(read, i);
    } else {
      var more := Items(v, i + 1);
      ItemLayout(Encode(v.xs[i]), more, rest);
      ParseEncoded(v.xs[i], [COMMA] + (more + rest));
      ParseItemsEncoded(v, i + 1, rest);
      ItemsGoOn(Items(v, i) + rest, read[i], more + rest, read[i + 1..], rest);
      NextDrop(read, i);
    }
  }

  lemma ItemLayout(item: Bytes, more: Bytes, rest: Bytes)
    ensures (item + ([COMMA] + more)) + rest == item + ([COMMA] + (more + rest))
  {
  }

  lemma LastDrop<T>(s: seq<T>, i: nat)
    requires i + 1 == |s|
    ensures s[i..] == [s[i]]
  {
  }

  lemma NextDrop<T>(s: seq<T>, i: nat)
    requires i + 1 < |s|
    ensures s[i..] == [s[i]] + s[i + 1..]
  {
  }

  /** The listed part of an object. */
  function Part(m: map<Text, Json>, keys: seq<Text>): map<Text, Json>
    requires forall k :: k in keys ==> k in m
  { map k | k in keys :: m[k] }

  lemma {:induction false} ParseObject(v: Json, rest: Bytes)
    requires v.Obj? && Named(v)
    ensures Parse(Encode(v) + rest) == Some((Cleaned(v), rest))
    decreases v, 1, |v.m| + 1
  {
    if v.m == map[] {
      EmptyObject(rest);
    } else {
      var keys := Order.Ascending(v.m.Keys);
      assert |keys| == |v.m.Keys| && v.m.Keys != {};
      Order.AscendingIsDistinct(v.m.Keys);
      ParseMembersEncoded(v, keys, rest);
      WholeListing(Cleaned(v).m, keys);
      MembersStart(v, keys);
      Associative([LEFT], Members(v, keys), rest);
      ObjectOf(Members(v, keys) + rest, Cleaned(v).m, rest);
    }
  }

  lemma EmptyObject(rest: Bytes)
    ensures Parse([LEFT] + [RIGHT] + rest) == Some((Obj(map[]), rest))
  {
    assert ([LEFT] + [RIGHT] + rest)[2..] == rest;
  }

  lemma ObjectOf(d: Bytes, m: map<Text, Json>, rest: Bytes)
    requires d != [] && d[0] == QUOTE && ParseMembers(d) == Some((m, rest))
    ensures Parse([LEFT] + d) == Some((Obj(m), rest))
  {
    HeadTail(LEFT, d);
    assert ([LEFT] + d)[1] == QUOTE;
  }

  lemma MembersStart(v: Json, keys: seq<Text>)
    requires v.Obj? && keys != [] && forall k :: k in keys ==> k in v.m
    ensures Members(v, keys) != [] && Members(v, keys)[0] == QUOTE
  {
  }

  lemma WholeListing(m: map<Text, Json>, keys: seq<Text>)
    requires forall k :: k in keys <==> k in m
    ensures Part(m, keys) == m
  {
  }

  lemma MembersEnd(d: Bytes, k: Text, after: Bytes, v: Json, rest: Bytes)
    requires ReadString(d) == Some((k, [COLON] + after)) && Parse(after) == Some((v, [RIGHT] + rest))
    ensures ParseMembers(d) == Some((map[k := v], rest))
  {
    HeadTail(COLON, after);
    HeadTail(RIGHT, rest);
  }

  lemma MembersGoOn(d: Bytes, k: Text, after: Bytes, v: Json, more: Bytes, m: map<Text, Json>, end: Bytes)
    requires ReadString(d) == Some((k, [COLON] + after)) && Parse(after) == Some((v, [COMMA] + more))
    requires ParseMembers(more) == Some((m, end)) && k !in m
    ensures ParseMembers(d) == Some((m[k := v], end))
  {
    HeadTail(COLON, after);
    HeadTail(COMMA, more);
  }

  lemma PartHead(m: map<Text, Json>, keys: seq<Text>)
    requires keys != [] && Distinct(keys) && forall k :: k in keys ==> k in m
    ensures keys[0] !in Part(m, keys[1..]) && Distinct(keys[1..])
    ensures Part(m, keys) == Part(m, keys[1..])[keys[0] := m[keys[0]]]
    ensures |keys| == 1 ==> Part(m, keys) == map[keys[0] := m[keys[0]]]
  {
    DistinctTail(keys);
    assert forall j :: j in keys <==> j == keys[0] || j in keys[1..];
  }

  lemma {:induction false} ParseMembersEncoded(v: Json, keys: seq<Text>, rest: Bytes)
    requires v.Obj? && Named(v) && keys != [] && Distinct(keys) && forall k :: k in keys ==> k in v.m
    ensures ParseMembers(Members(v, keys) + rest) == Some((Part(Cleaned(v).m, keys), rest))
    decreases v, 1, |keys|
  {
    var k, tail := keys[0], keys[1..];
    var value, read := Encode(v.m[k]), Cleaned(v).m;
    PartHead(read, keys);
    if |keys| == 1 {
      MemberLayout(Quoted(k), value, [RIGHT], rest);
      StringRead(k, [COLON] + (value + ([RIGHT] + rest)));
      ParseEncoded(v.m[k], [RIGHT] + rest);
      MembersEnd(Members(v, keys) + rest, k, value + ([RIGHT] + rest), read[k], rest);
    } else {
      var more := Members(v, tail);
      MemberLayout(Quoted(k), value, [COMMA] + more, rest);
      Associative([COMMA], more, rest);
      StringRead(k, [COLON] + (value + ([COMMA] + (more + rest))));
      ParseEncoded(v.m[k], [COMMA] + (more + rest));
      ParseMembersEncoded(v, tail, rest);
      MembersGoOn(Members(v, keys) + rest, k, value + ([COMMA] + (more + rest)), read[k], more + rest, Part(read, tail), rest);
    }
  }

  lemma MemberLayout(key: Bytes, value: Bytes, after: Bytes, rest: Bytes)
    ensures ((key + [COLON]) + (value + after)) + rest == key + ([COLON] + (value + (after + rest)))
  {
  }

  /** Canonical text determines the value. */
  lemma EncodeInjective(v: Json, w: Json)
    requires Proper(v) && Proper(w) && Encode(v) == Encode(w)
    ensures v == w
  {
    ProperIsClean(v);
    ProperIsClean(w);
    ParseEncoded(v, []);
    ParseEncoded(w, []);
    assert Encode(v) + [] == Encode(v) && Encode(w) + [] == Encode(w);
  }

  // ---- the encoder ---------------------------------------------------------

  /** `bytes.Buffer`. */
  class Buffer {
    var data: Bytes

    constructor ()
      ensures data == []
    { data := []; }

    method Write(b: Bytes)
      modifies this
      ensures data == old(data) + b
    { data := data + b; }
  }

  lemma {:induction false} EscapeSnoc(rs: seq<Rune>, r: Rune)
    ensures EscapeAll(rs + [r]) == EscapeAll(rs) + Escape(r)
    decreases |rs|
  {
    if rs == [] {
      assert [r][1..] == [];
    } else {
      assert (rs + [r])[1..] == rs[1..] + [r];
      EscapeSnoc(rs[1..], r);
      Associative(Escape(rs[0]), EscapeAll(rs[1..]), Escape(r));
    }
  }

  /** `encodeString`: a loop over the runes of the text. */
  method EncodeString(b: Buffer, t: Text)
    modifies b
    ensures b.data == old(b.data) + Quoted(t)
  {
    b.Write([QUOTE]);
    var rest := t;
    ghost var done: seq<Rune> := [];
    while rest != []
      invariant Utf8.Runes(t) == done + Utf8.Runes(rest)
      invariant b.data == old(b.data) + [QUOTE] + EscapeAll(done)
      decreases |rest|
    {
      var (r, n) := Utf8.DecodeRune(rest);
      EscapeSnoc(done, r);
      ghost var written := b.data;
      b.Write(Escape(r));
      Associative(old(b.data) + [QUOTE], EscapeAll(done), Escape(r));
      Associative(done, [r], Utf8.Runes(rest[n..]));
      done := done + [r];
      rest := rest[n..];
    }
    b.Write([QUOTE]);
    QuotedLayout(old(b.data), EscapeAll(Utf8.Runes(t)));
    assert done + [] == done;
  }

  lemma QuotedLayout(before: Bytes, inner: Bytes)
    ensures ((before + [QUOTE]) + inner) + [QUOTE] == before + ([QUOTE] + (inner + [QUOTE]))
  {
  }

  /** `encode`, appending to a shared buffer; keys are visited in sorted order. */
  method EncodeTo(b: Buffer, v: Json)
    modifies b
    ensures b.data == old(b.data) + Encode(v)
    decreases v, 2, 0
  {
    match v
    case Null => b.Write(NULL);
    case Bool(x) => b.Write(if x then TRUE else FALSE);
    case Num(i) => b.Write(Integer(i));
    case Whole(i) => b.Write(Integer(i) + TENTHS);
    case Str(s) => EncodeString(b, s);
    case Arr(xs) =>
      b.Write([OPEN]);
      EncodeItems(b, v);
      Associative(old(b.data), [OPEN], ArrayBody(v));
    case Obj(m) =>
      b.Write([LEFT]);
      EncodeMembers(b, v);
      Associative(old(b.data), [LEFT], ObjectBody(v));
  }

  ghost function ArrayBody(v: Json): Bytes
    requires v.Arr?
  { if v.xs == [] then [CLOSE] else Items(v, 0) }

  ghost function ObjectBody(v: Json): Bytes
    requires v.Obj?
  { if v.m == map[] then [RIGHT] else Members(v, Order.Ascending(v.m.Keys)) }

  method EncodeItems(b: Buffer, v: Json)
    requires v.Arr?
    modifies b
    ensures b.data == old(b.data) + ArrayBody(v)
    decreases v, 1, 0
  {
    ghost var before := b.data;
    if v.xs == [] {
      b.Write([CLOSE]);
      return;
    }
    var i := 0;
    while i < |v.xs|
      invariant 0 <= i <= |v.xs|
      invariant if i < |v.xs| then b.data + Items(v, i) == before + Items(v, 0) else b.data + [CLOSE] == before + Items(v, 0)
    {
      ghost var written := b.data;
      EncodeTo(b, v.xs[i]);
      if i + 1 < |v.xs| { b.Write([COMMA]); }
      ItemWritten(written, v, i);
      i := i + 1;
    }
    b.Write([CLOSE]);
  }

  lemma ItemWritten(written: Bytes, v: Json, i: nat)
    requires v.Arr? && i < |v.xs|
    ensures i + 1 < |v.xs| ==> ((written + Encode(v.xs[i])) + [COMMA]) + Items(v, i + 1) == written + Items(v, i)
    ensures i + 1 == |v.xs| ==> (written + Encode(v.xs[i])) + [CLOSE] == written + Items(v, i)
  {
    if i + 1 < |v.xs| {
      Associative(written + Encode(v.xs[i]), [COMMA], Items(v, i + 1));
      Associative(written, Encode(v.xs[i]), [COMMA] + Items(v, i + 1));
    } else {
      Associative(written, Encode(v.xs[i]), [CLOSE]);
    }
  }

  method EncodeMembers(b: Buffer, v: Json)
    requires v.Obj?
    modifies b
    ensures b.data == old(b.data) + ObjectBody(v)
    decreases v, 1, 0
  {
    ghost var before := b.data;
    var keys := Order.SortKeys(v.m.Keys);
    assert |keys| == |v.m.Keys|;
    if |keys| == 0 {
      assert v.m.Keys == {};
      b.Write([RIGHT]);
      return;
    }
    var i := 0;
    assert keys[0..] == keys;
    while i < |keys|
      invariant 0 <= i <= |keys|
      invariant if i < |keys| then b.data + Members(v, keys[i..]) == before + Members(v, keys) else b.data + [RIGHT] == before + Members(v, keys)
    {
      ghost var written := b.data;
      assert keys[i..][1..] == keys[i + 1..];
      EncodeMember(b, v, keys[i]);
      if i + 1 < |keys| { b.Write([COMMA]); }
      MemberWritten(written, v, keys[i..]);
      i := i + 1;
    }
    b.Write([RIGHT]);
  }

  method EncodeMember(b: Buffer, v: Json, k: Text)
    requires v.Obj? && k in v.m
    modifies b
    ensures b.data == ((old(b.data) + Quoted(k)) + [COLON]) + Encode(v.m[k])
    decreases v, 0, 0
  {
    EncodeString(b, k);
    b.Write([COLON]);
    EncodeTo(b, v.m[k]);
  }

  lemma MemberWritten(written: Bytes, v: Json, keys: seq<Text>)
    requires v.Obj? && keys != [] && forall k :: k in keys ==> k in v.m
    ensures |keys| > 1 ==> ((((written + Quoted(keys[0])) + [COLON]) + Encode(v.m[keys[0]])) + [COMMA]) + Members(v, keys[1..]) == written + Members(v, keys)
    ensures |keys| == 1 ==> (((written + Quoted(keys[0])) + [COLON]) + Encode(v.m[keys[0]])) + [RIGHT] == written + Members(v, keys)
  {
    var value := Encode(v.m[keys[0]]);
    if |keys| > 1 {
      WrittenLayout(written, Quoted(keys[0]), value, [COMMA] + Members(v, keys[1..]));
      Associative(((written + Quoted(keys[0])) + [COLON]) + value, [COMMA], Members(v, keys[1..]));
    } else {
      WrittenLayout(written, Quoted(keys[0]), value, [RIGHT]);
    }
  }

  lemma WrittenLayout(written: Bytes, key: Bytes, value: Bytes, after: Bytes)
    ensures (((written + key) + [COLON]) + value) + after == written + ((key + [COLON]) + (value + after))
  {
  }

  /** `Marshal`. */
  method Marshal(v: Json) returns (text: Bytes)
    ensures text == Encode(v)
  {
    var b := new Buffer();
    EncodeTo(b, v);
    text := b.data;
  }
}
