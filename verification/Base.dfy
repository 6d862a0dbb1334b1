/** Bytes, machine integers and the small sequence facts every other module uses. */
module Base {

  type byte = x: int | 0 <= x < 256
  type Bytes = seq<byte>
  /** A Go string: an immutable sequence of bytes. */
  type Text = seq<byte>

  const TWO64: int := 0x1_0000_0000_0000_0000
  type u64 = x: int | 0 <= x < 0x1_0000_0000_0000_0000
  type u32 = x: int | 0 <= x < 0x1_0000_0000
  type u16 = x: int | 0 <= x < 0x1_0000
  const MAX64: u64 := 0xFFFF_FFFF_FFFF_FFFF

  datatype Option<+T> = None | Some(value: T) {
    predicate IsFailure() { None? }
    function PropagateFailure<U>(): Option<U>
      requires None?
    { None }
    function Extract(): T
      requires Some?
    { value }
  }

  /** The bytes of an ASCII literal. */
  function Ascii(s: string): (t: Text)
    ensures |t| == |s|
    ensures forall i :: 0 <= i < |s| ==> t[i] == (s[i] as int) % 256
  {
    seq(|s|, i requires 0 <= i < |s| => (s[i] as int) % 256)
  }

  lemma Associative<T>(a: seq<T>, b: seq<T>, c: seq<T>)
    ensures (a + b) + c == a + (b + c)
  {
  }

  // ---- sequences -----------------------------------------------------------

  predicate Distinct<T(==)>(s: seq<T>) {
    forall i, j :: 0 <= i < j < |s| ==> s[i] != s[j]
  }

  lemma DistinctTail<T>(s: seq<T>)
    requires s != []
    ensures Distinct(s) <==> s[0] !in s[1..] && Distinct(s[1..])
  {
    if s[0] !in s[1..] && Distinct(s[1..]) {
      forall i, j | 0 <= i < j < |s|
        ensures s[i] != s[j]
      {
        assert s[j] == s[1..][j - 1];
        if i > 0 { assert s[i] == s[1..][i - 1]; }
      }
    }
  }

  predicate Disjoint<T(==)>(s: seq<T>, t: seq<T>) {
    forall x :: x in t ==> x !in s
  }

  /** A list joined from two holds nothing twice exactly when neither does and they share nothing. */
  lemma DistinctJoin<T>(s: seq<T>, t: seq<T>)
    ensures Distinct(s + t) <==> Distinct(s) && Distinct(t) && Disjoint(s, t)
  {
    var u := s + t;
    assert forall i :: 0 <= i < |s| ==> u[i] == s[i];
    if Distinct(u) {
      forall x | x in t
        ensures x !in s
      {
        var j :| 0 <= j < |t| && t[j] == x;
        assert forall i :: 0 <= i < |s| ==> u[i] != u[|s| + j];
      }
      forall i, j | 0 <= i < j < |t|
        ensures t[i] != t[j]
      {
        assert u[|s| + i] != u[|s| + j];
      }
    }
    if Disjoint(s, t) {
      forall j | |s| <= j < |u|
        ensures u[j] == t[j - |s|] && u[j] !in s
      {
        assert t[j - |s|] in t;
      }
    }
  }

  lemma WholeSlice<T>(s: seq<T>)
    ensures s[..|s|] == s
  {
  }

  lemma WholeTail<T>(s: seq<T>, lo: nat)
    requires lo <= |s|
    ensures s[lo..|s|] == s[lo..]
  {
  }

  lemma SliceOfSlice<T>(s: seq<T>, k: nat)
    requires k < |s|
    ensures s[..|s| - 1][..k] == s[..k]
  {
  }

  lemma SplitLast<T>(s: seq<T>)
    requires s != []
    ensures s == s[..|s| - 1] + [s[|s| - 1]]
  {
  }

  lemma LastOf<T>(s: seq<T>, x: T)
    ensures (s + [x])[..|s + [x]| - 1] == s && (s + [x])[|s + [x]| - 1] == x
  {
  }

  lemma Snoc<T>(s: seq<T>, i: nat)
    requires i < |s|
    ensures s[..i + 1] == s[..i] + [s[i]]
  {
  }

  /** A prefix of one element more, taken apart at its last element. */
  lemma Extend<T>(s: seq<T>, i: nat)
    requires i < |s|
    ensures s[..i + 1] != [] && s[..i + 1][..|s[..i + 1]| - 1] == s[..i] && s[..i + 1][|s[..i + 1]| - 1] == s[i]
  {
  }

  lemma FrontBack<T>(s: seq<T>, t: seq<T>)
    ensures (s + t)[..|s|] == s && (s + t)[|s|..] == t
  {
  }

  lemma HeadTake<T>(s: seq<T>, n: nat)
    requires n < |s|
    ensures s[..n + 1] == [s[0]] + s[1..][..n]
  {
  }

  lemma HeadTail<T>(h: T, t: seq<T>)
    ensures ([h] + t)[0] == h && ([h] + t)[1..] == t
  {
  }

  // ---- big-endian integers -------------------------------------------------

  function Pow256(n: nat): (p: nat)
    ensures p > 0
  {
    if n == 0 then 1 else 256 * Pow256(n - 1)
  }

  /** `n` bytes, most significant first; the high part of a larger value is dropped. */
  function BigEndian(x: nat, n: nat): (b: Bytes)
    ensures |b| == n
  {
    if n == 0 then [] else BigEndian(x / 256, n - 1) + [x % 256]
  }

  function FromBigEndian(b: Bytes): nat
  {
    if |b| == 0 then 0 else FromBigEndian(b[..|b| - 1]) * 256 + b[|b| - 1]
  }

  /** Byte `i` of `n` is the digit of its place, the most significant first. */
  lemma {:induction false} BigEndianDigit(x: nat, n: nat, i: nat)
    requires i < n
    ensures BigEndian(x, n)[i] == x / Pow256(n - 1 - i) % 256
  {
    if i < n - 1 {
      BigEndianDigit(x / 256, n - 1, i);
      DivideTwice(x, Pow256(n - 2 - i));
    }
  }

  lemma DivideTwice(x: nat, d: nat)
    requires d > 0
    ensures x / 256 / d == x / (256 * d)
  {
    var q, r := x / 256, x % 256;
    var k := q / d;
    assert x == 256 * q + r && q == d * k + q % d;
    assert x == (256 * d) * k + (256 * (q % d) + r) by {
      assert 256 * (d * k) == (256 * d) * k;
    }
    assert 0 <= 256 * (q % d) + r < 256 * d;
    QuotientOf(x, 256 * d, k, 256 * (q % d) + r);
  }

  lemma QuotientOf(x: nat, d: nat, k: nat, r: nat)
    requires d > 0 && x == d * k + r && r < d
    ensures x / d == k
  {
    var j := x / d;
    Scaled(j + 1, k, d);
    Scaled(k + 1, j, d);
  }

  lemma Scaled(m: nat, n: nat, d: nat)
    ensures m <= n ==> m * d <= n * d
  {
  }

  lemma {:induction false} BigEndianRoundTrip(x: nat, n: nat)
    requires x < Pow256(n)
    ensures FromBigEndian(BigEndian(x, n)) == x
  {
    if n > 0 {
      BigEndianRoundTrip(x / 256, n - 1);
      var b := BigEndian(x, n);
      assert b[..n - 1] == BigEndian(x / 256, n - 1);
    }
  }

  lemma {:induction false} FromBigEndianRoundTrip(b: Bytes)
    ensures FromBigEndian(b) < Pow256(|b|)
    ensures BigEndian(FromBigEndian(b), |b|) == b
  {
    if |b| > 0 {
      FromBigEndianRoundTrip(b[..|b| - 1]);
      var x := FromBigEndian(b);
      assert x / 256 == FromBigEndian(b[..|b| - 1]);
      assert b == b[..|b| - 1] + [b[|b| - 1]];
    }
  }

  lemma Pow256Values()
    ensures Pow256(2) == 0x1_0000 && Pow256(4) == 0x1_0000_0000 && Pow256(8) == TWO64
  {
    assert Pow256(1) == 256 && Pow256(3) == 0x100_0000;
    assert Pow256(5) == 256 * Pow256(4) && Pow256(6) == 256 * Pow256(5) && Pow256(7) == 256 * Pow256(6);
  }

  function PutU64(x: u64): (b: Bytes)
    ensures |b| == 8 && FromBigEndian(b) == x
  {
    Pow256Values();
    BigEndianRoundTrip(x, 8);
    BigEndian(x, 8)
  }

  function PutU32(x: u32): (b: Bytes)
    ensures |b| == 4 && FromBigEndian(b) == x
  {
    Pow256Values();
    BigEndianRoundTrip(x, 4);
    BigEndian(x, 4)
  }

  function PutU16(x: u16): (b: Bytes)
    ensures |b| == 2 && FromBigEndian(b) == x
  {
    Pow256Values();
    BigEndianRoundTrip(x, 2);
    BigEndian(x, 2)
  }

  function GetU64(b: Bytes): (x: u64)
    requires |b| == 8
    ensures PutU64(x) == b
  {
    Pow256Values();
    FromBigEndianRoundTrip(b);
    FromBigEndian(b)
  }

  function GetU32(b: Bytes): (x: u32)
    requires |b| == 4
    ensures PutU32(x) == b
  {
    Pow256Values();
    FromBigEndianRoundTrip(b);
    FromBigEndian(b)
  }

  function GetU16(b: Bytes): (x: u16)
    requires |b| == 2
    ensures PutU16(x) == b
  {
    Pow256Values();
    FromBigEndianRoundTrip(b);
    FromBigEndian(b)
  }
}
