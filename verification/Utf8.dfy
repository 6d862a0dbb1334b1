/** UTF-8 as Go's range loop decodes it (RFC 3629, section 3). */
module Utf8 {
  import opened Base

  /** A Unicode scalar value. */
  type Rune = x: int | 0 <= x < 0xD800 || 0xE000 <= x < 0x110000

  const REPLACEMENT: Rune := 0xFFFD

  function EncodeRune(r: Rune): (b: Bytes)
    ensures 1 <= |b| <= 4
  {
    if r < 0x80 then [r]
    else if r < 0x800 then [0xC0 + r / 64, 0x80 + r % 64]
    else if r < 0x10000 then [0xE0 + r / 4096, 0x80 + r / 64 % 64, 0x80 + r % 64]
    else [0xF0 + r / 262144, 0x80 + r / 4096 % 64, 0x80 + r / 64 % 64, 0x80 + r % 64]
  }

  function Encode(rs: seq<Rune>): Bytes
    decreases |rs|
  {
    if rs == [] then [] else EncodeRune(rs[0]) + Encode(rs[1..])
  }

  predicate Continues(t: Text, i: nat, lo: int, hi: int) { i < |t| && lo <= t[i] <= hi }

  /** The six bits of a continuation byte. */
  function Bits(t: Text, i: nat): int
    requires i < |t|
  {
    var x: int := t[i];
    x - 0x80
  }

  predicate Is2(t: Text) { Continues(t, 0, 0xC2, 0xDF) && Continues(t, 1, 0x80, 0xBF) }

  predicate Is3(t: Text) {
    && Continues(t, 0, 0xE0, 0xEF)
    && Continues(t, 1, if t[0] == 0xE0 then 0xA0 else 0x80, if t[0] == 0xED then 0x9F else 0xBF)
    && Continues(t, 2, 0x80, 0xBF)
  }

  predicate Is4(t: Text) {
    && Continues(t, 0, 0xF0, 0xF4)
    && Continues(t, 1, if t[0] == 0xF0 then 0x90 else 0x80, if t[0] == 0xF4 then 0x8F else 0xBF)
    && Continues(t, 2, 0x80, 0xBF) && Continues(t, 3, 0x80, 0xBF)
  }

  /** The next rune and its width; an invalid byte counts as one replacement rune. */
  function DecodeRune(t: Text): (d: (Rune, nat))
    requires t != []
    ensures 1 <= d.1 <= |t|
  {
    var b: int := t[0];
    if b < 0x80 then (b, 1)
    else if Is2(t) then ((b - 0xC0) * 64 + Bits(t, 1), 2)
    else if Is3(t) then ((b - 0xE0) * 4096 + Bits(t, 1) * 64 + Bits(t, 2), 3)
    else if Is4(t) then ((b - 0xF0) * 262144 + Bits(t, 1) * 4096 + Bits(t, 2) * 64 + Bits(t, 3), 4)
    else (REPLACEMENT, 1)
  }

  /** The runes a range loop visits. */
  function Runes(t: Text): seq<Rune>
    decreases |t|
  {
    if t == [] then []
    else
      var (r, n) := DecodeRune(t);
      [r] + Runes(t[n..])
  }

  /** Well-formed text: nothing was replaced. */
  predicate WellFormed(t: Text) { Encode(Runes(t)) == t }

  /** Text of one-byte runes is well-formed. */
  lemma {:induction false} AsciiWellFormed(t: Text)
    requires forall i :: 0 <= i < |t| ==> t[i] < 0x80
    ensures WellFormed(t)
    decreases |t|
  {
    if t != [] {
      AsciiWellFormed(t[1..]);
      assert Runes(t) == [t[0]] + Runes(t[1..]);
      assert ([t[0]] + Runes(t[1..]))[1..] == Runes(t[1..]);
    }
  }

  lemma Decode2(r: Rune, t: Text)
    requires 0x80 <= r < 0x800 && |t| >= 2 && t[0] == 0xC0 + r / 64 && t[1] == 0x80 + r % 64
    ensures DecodeRune(t) == (r, 2)
  {
  }

  lemma Decode3(r: Rune, t: Text)
    requires 0x800 <= r < 0x10000 && |t| >= 3 && t[0] == 0xE0 + r / 4096 && t[1] == 0x80 + r / 64 % 64 && t[2] == 0x80 + r % 64
    ensures DecodeRune(t) == (r, 3)
  {
    assert r / 64 == (r / 4096) * 64 + r / 64 % 64;
    assert Is3(t);
  }

  lemma Decode4(r: Rune, t: Text)
    requires 0x10000 <= r && |t| >= 4 && t[0] == 0xF0 + r / 262144 && t[1] == 0x80 + r / 4096 % 64
    requires t[2] == 0x80 + r / 64 % 64 && t[3] == 0x80 + r % 64
    ensures DecodeRune(t) == (r, 4)
  {
    assert r / 64 == (r / 4096) * 64 + r / 64 % 64;
    assert r / 4096 == (r / 262144) * 64 + r / 4096 % 64;
    assert Is4(t);
  }

  lemma DecodeEncoded(r: Rune, rest: Text)
    ensures DecodeRune(EncodeRune(r) + rest) == (r, |EncodeRune(r)|)
  {
    var t := EncodeRune(r) + rest;
    if 0x80 <= r < 0x800 {
      Decode2(r, t);
    } else if 0x800 <= r < 0x10000 {
      Decode3(r, t);
    } else if r >= 0x10000 {
      Decode4(r, t);
    }
  }

  /** Every list of scalar values is read back from its encoding, which is therefore well-formed. */
  lemma {:induction false} RunesRoundTrip(rs: seq<Rune>)
    ensures Runes(Encode(rs)) == rs && WellFormed(Encode(rs))
    decreases |rs|
  {
    if rs != [] {
      RunesRoundTrip(rs[1..]);
      DecodeEncoded(rs[0], Encode(rs[1..]));
      assert (EncodeRune(rs[0]) + Encode(rs[1..]))[|EncodeRune(rs[0])|..] == Encode(rs[1..]);
    }
  }
}
