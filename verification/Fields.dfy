/** The field writer and reader under every peer-to-peer message. (internal/p2p/wire.go) */
module Fields {
  import opened Base
  import Utf8

  const MAX_STRING: nat := 256

  datatype Shape = S8 | S16 | S32 | SStr | SRaw(max: u32) | SFixed(n: nat)

  /** A test beside the shape, made by an encoder or by a decoder. */
  datatype Rule = Any | Between(lo: nat, hi: nat) | NonEmpty | Exactly(t: Text) | Length(n: nat)

  datatype Kind = Kind(shape: Shape, send: Rule, recv: Rule)
  datatype Field = Num(n: nat) | Data(b: Bytes)

  predicate Obeys(f: Field, r: Rule) {
    match r
    case Any => true
    case Between(lo, hi) => f.Num? && lo <= f.n <= hi
    case NonEmpty => f.Data? && f.b != []
    case Exactly(t) => f.Data? && f.b == t
    case Length(n) => f.Data? && |f.b| == n
  }

  predicate Fits(f: Field, s: Shape) {
    match s
    case S8 => f.Num? && f.n < 0x100
    case S16 => f.Num? && f.n < 0x1_0000
    case S32 => f.Num? && f.n < 0x1_0000_0000
    case SStr => f.Data? && |f.b| <= MAX_STRING
    case SRaw(max) => f.Data? && |f.b| <= max
    case SFixed(n) => f.Data? && |f.b| == n
  }

  function Put(s: Shape, f: Field): Bytes
    requires Fits(f, s)
  {
    match s
    case S8 => [f.n]
    case S16 => PutU16(f.n)
    case S32 => PutU32(f.n)
    case SStr => PutU16(|f.b|) + f.b
    case SRaw(_) => PutU32(|f.b|) + f.b
    case SFixed(_) => f.b
  }

  predicate Writable(k: Kind, f: Field) { Obeys(f, k.send) && Fits(f, k.shape) }

  /** What the writer holds: after the first field it refuses nothing more is written. */
  function Written(ks: seq<Kind>, fs: seq<Field>): Bytes
    requires |ks| == |fs|
    decreases |ks|
  {
    if ks == [] || !Writable(ks[0], fs[0]) then [] else Put(ks[0].shape, fs[0]) + Written(ks[1..], fs[1..])
  }

  function Take(n: nat, d: Bytes): Option<(Bytes, Bytes)> {
    if |d| < n then None else Some((d[..n], d[n..]))
  }

  function Get(s: Shape, d: Bytes): Option<(Field, Bytes)> {
    match s
    case S8 => if d == [] then None else Some((Num(d[0]), d[1..]))
    case S16 =>
      var (h, r) :- Take(2, d);
      Some((Num(GetU16(h)), r))
    case S32 =>
      var (h, r) :- Take(4, d);
      Some((Num(GetU32(h)), r))
    case SStr =>
      var (h, r) :- Take(2, d);
      if GetU16(h) > MAX_STRING then None
      else
        var (b, rest) :- Take(GetU16(h), r);
        if Utf8.WellFormed(b) then Some((Data(b), rest)) else None
    case SRaw(max) =>
      var (h, r) :- Take(4, d);
      if GetU32(h) > max then None
      else
        var (b, rest) :- Take(GetU32(h), r);
        Some((Data(b), rest))
    case SFixed(n) =>
      var (b, rest) :- Take(n, d);
      Some((Data(b), rest))
  }

  function ReadAll(ks: seq<Kind>, d: Bytes): (r: Option<(seq<Field>, Bytes)>)
    ensures r.Some? ==> |r.value.0| == |ks|
    decreases |ks|
  {
    if ks == [] then Some(([], d))
    else
      var (f, rest) :- Get(ks[0].shape, d);
      if !Obeys(f, ks[0].recv) then None
      else
        var (fs, end) :- ReadAll(ks[1..], rest);
        Some(([f] + fs, end))
  }

  // ---- what is read back ---------------------------------------------------

  /** Written by the encoder and accepted by the decoder. */
  predicate Clean(k: Kind, f: Field) {
    Writable(k, f) && Obeys(f, k.recv) && (k.shape.SStr? ==> Utf8.WellFormed(f.b))
  }

  predicate AllClean(ks: seq<Kind>, fs: seq<Field>)
    requires |ks| == |fs|
    decreases |ks|
  {
    ks == [] || (Clean(ks[0], fs[0]) && AllClean(ks[1..], fs[1..]))
  }

  predicate Solid(s: Shape) { s.SFixed? ==> s.n > 0 }

  lemma TakeBack(b: Bytes, rest: Bytes)
    ensures Take(|b|, b + rest) == Some((b, rest))
  {
  }

  lemma GetPuts16(n: u16)
    ensures GetU16(PutU16(n)) == n
  {
  }

  lemma GetPuts32(n: u32)
    ensures GetU32(PutU32(n)) == n
  {
  }

  lemma GetPut(s: Shape, f: Field, rest: Bytes)
    requires Fits(f, s)
    ensures Get(s, Put(s, f) + rest) == if s.SStr? && !Utf8.WellFormed(f.b) then None else Some((f, rest))
  {
    match s
    case S8 => assert ([f.n] + rest)[1..] == rest;
    case S16 =>
      GetPuts16(f.n);
      TakeBack(PutU16(f.n), rest);
    case S32 =>
      GetPuts32(f.n);
      TakeBack(PutU32(f.n), rest);
    case SStr =>
      GetPuts16(|f.b|);
      Associative(PutU16(|f.b|), f.b, rest);
      TakeBack(PutU16(|f.b|), f.b + rest);
      TakeBack(f.b, rest);
    case SRaw(_) =>
      GetPuts32(|f.b|);
      Associative(PutU32(|f.b|), f.b, rest);
      TakeBack(PutU32(|f.b|), f.b + rest);
      TakeBack(f.b, rest);
    case SFixed(_) => TakeBack(f.b, rest);
  }

  /** Fields in order are read back in order. */
  lemma {:induction false} CleanRead(ks: seq<Kind>, fs: seq<Field>, rest: Bytes)
    requires |ks| == |fs| && AllClean(ks, fs)
    ensures ReadAll(ks, Written(ks, fs) + rest) == Some((fs, rest))
    decreases |ks|
  {
    if ks == [] {
      assert [] + rest == rest;
    } else {
      CleanRead(ks[1..], fs[1..], rest);
      GetPut(ks[0].shape, fs[0], Written(ks[1..], fs[1..]) + rest);
      Associative(Put(ks[0].shape, fs[0]), Written(ks[1..], fs[1..]), rest);
      assert fs == [fs[0]] + fs[1..];
    }
  }

  lemma NothingToGet(s: Shape)
    requires Solid(s)
    ensures Get(s, []).None?
  {
  }

  /** One field that either side objects to spoils the whole message. */
  lemma {:induction false} UncleanRefused(ks: seq<Kind>, fs: seq<Field>)
    requires |ks| == |fs| && !AllClean(ks, fs) && forall k :: k in ks ==> Solid(k.shape)
    ensures ReadAll(ks, Written(ks, fs)).None?
    decreases |ks|
  {
    if !Writable(ks[0], fs[0]) {
      NothingToGet(ks[0].shape);
    } else {
      GetPut(ks[0].shape, fs[0], Written(ks[1..], fs[1..]));
      if Clean(ks[0], fs[0]) { UncleanRefused(ks[1..], fs[1..]); }
    }
  }

  // ---- the writer and the reader -------------------------------------------

  class Writer {
    var data: Bytes
    var failed: bool

    constructor ()
      ensures data == [] && !failed
    { data, failed := [], false; }

    /** A field method of the writer behind its encoder's test. */
    method Field(k: Kind, f: Field)
      modifies this
      ensures failed == (old(failed) || !Writable(k, f))
      ensures data == if failed then old(data) else old(data) + Put(k.shape, f)
    {
      if failed { return; }
      if !Obeys(f, k.send) || !Fits(f, k.shape) {
        failed := true;
        return;
      }
      data := data + Put(k.shape, f);
    }

    method All(ks: seq<Kind>, fs: seq<Field>)
      requires |ks| == |fs| && !failed
      modifies this
      ensures data == old(data) + Written(ks, fs)
    {
      var i := 0;
      assert ks[0..] == ks && fs[0..] == fs;
      while i < |ks|
        invariant 0 <= i <= |ks|
        invariant old(data) + Written(ks, fs) == if failed then data else data + Written(ks[i..], fs[i..])
      {
        ghost var before := data;
        assert ks[i..][1..] == ks[i + 1..] && fs[i..][1..] == fs[i + 1..];
        Field(ks[i], fs[i]);
        if !failed { Associative(before, Put(ks[i].shape, fs[i]), Written(ks[i + 1..], fs[i + 1..])); }
        i := i + 1;
      }
    }
  }

  class Reader {
    var rest: Bytes
    var failed: bool

    constructor (d: Bytes)
      ensures rest == d && !failed
    { rest, failed := d, false; }

    /** A field method of the reader with its decoder's test. */
    method Field(k: Kind) returns (f: Field)
      requires !failed
      modifies this
      ensures failed == (Get(k.shape, old(rest)).None? || !Obeys(Get(k.shape, old(rest)).value.0, k.recv))
      ensures !failed ==> Get(k.shape, old(rest)) == Some((f, rest))
    {
      f := Num(0);
      var got := Get(k.shape, rest);
      if got.None? || !Obeys(got.value.0, k.recv) {
        failed := true;
        return;
      }
      f, rest := got.value.0, got.value.1;
    }

    method All(ks: seq<Kind>) returns (fs: seq<Field>)
      requires !failed
      modifies this
      ensures failed == ReadAll(ks, old(rest)).None?
      ensures !failed ==> ReadAll(ks, old(rest)) == Some((fs, rest))
    {
      fs := [];
      var i := 0;
      ghost var whole := ReadAll(ks, rest);
      assert ks[0..] == ks;
      Regroup([], Num(0), whole);
      while i < |ks| && !failed
        invariant 0 <= i <= |ks|
        invariant whole == if failed then None else match ReadAll(ks[i..], rest) case None => None case Some((more, end)) => Some((fs + more, end))
      {
        assert ks[i..][1..] == ks[i + 1..];
        ghost var before := fs;
        var f := Field(ks[i]);
        if !failed {
          fs := fs + [f];
          Regroup(before, f, ReadAll(ks[i + 1..], rest));
        }
        i := i + 1;
      }
      assert fs + [] == fs;
    }
  }

  lemma Regroup(before: seq<Field>, f: Field, more: Option<(seq<Field>, Bytes)>)
    ensures more.Some? ==> before + ([f] + more.value.0) == (before + [f]) + more.value.0 && [] + more.value.0 == more.value.0
  {
  }
}
