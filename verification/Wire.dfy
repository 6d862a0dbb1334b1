/** The twelve messages byte by byte, and which of them are accepted. (internal/p2p/wire.go, internal/p2p/messages.go) */
module Wire {
  import opened Base
  import opened Frames
  import opened Fields
  import opened Messages
  import Utf8

  // ---- bytes ---------------------------------------------------------------

  function B16(n: nat): Bytes
    requires n < 0x1_0000
  { [n / 256, n % 256] }

  function B32(n: nat): Bytes
    requires n < 0x1_0000_0000
  { [n / 0x100_0000, n / 0x1_0000 % 256, n / 256 % 256, n % 256] }

  lemma Puts16(n: u16)
    ensures PutU16(n) == B16(n)
  {
    assert BigEndian(n, 2) == BigEndian(n / 256, 1) + [n % 256] && BigEndian(n / 256, 1) == BigEndian(n / 256 / 256, 0) + [n / 256 % 256];
  }

  lemma Puts32(n: u32)
    ensures PutU32(n) == B32(n)
  {
    assert BigEndian(n, 4) == BigEndian(n / 256, 3) + [n % 256];
    assert BigEndian(n / 256, 3) == BigEndian(n / 256 / 256, 2) + [n / 256 % 256];
    assert BigEndian(n / 256 / 256, 2) == BigEndian(n / 256 / 256 / 256, 1) + [n / 256 / 256 % 256];
    assert BigEndian(n / 256 / 256 / 256, 1) == BigEndian(n / 256 / 256 / 256 / 256, 0) + [n / 256 / 256 / 256 % 256];
    assert n / 256 / 256 == n / 0x1_0000 && n / 256 / 256 / 256 == n / 0x100_0000;
  }

  predicate Short(t: Text) { |t| <= 256 && Utf8.WellFormed(t) }
  predicate Named(t: Text) { t != [] && Short(t) }

  function Str(t: Text): Bytes
    requires Short(t)
  { B16(|t|) + t }

  predicate Sized(b: Bytes, max: u32) { |b| <= max }

  function Raw(b: Bytes): Bytes
    requires |b| < 0x1_0000_0000
  { B32(|b|) + b }

  predicate AllOf(xs: seq<Bytes>, n: nat) { forall i :: 0 <= i < |xs| ==> |xs[i]| == n }
  predicate AllWithin(xs: seq<Bytes>, max: u32) { forall i :: 0 <= i < |xs| ==> |xs[i]| <= max }

  function Cat(xs: seq<Bytes>): Bytes
    decreases |xs|
  { if xs == [] then [] else xs[0] + Cat(xs[1..]) }

  function RawCat(xs: seq<Bytes>): Bytes
    requires AllWithin(xs, 0xFFFF_FFFF)
    decreases |xs|
  { if xs == [] then [] else Raw(xs[0]) + RawCat(xs[1..]) }

  predicate LawfulPeer(p: Peer) { Named(p.nodeId) && Named(p.host) && p.port > 0 && p.capabilities <= 7 }

  function PeerBytes(p: Peer): Bytes
    requires LawfulPeer(p)
  { Str(p.nodeId) + (Str(p.host) + (B16(p.port) + B32(p.capabilities))) }

  function PeerCat(ps: seq<Peer>): Bytes
    requires forall i :: 0 <= i < |ps| ==> LawfulPeer(ps[i])
    decreases |ps|
  { if ps == [] then [] else PeerBytes(ps[0]) + PeerCat(ps[1..]) }

  // ---- the messages --------------------------------------------------------

  predicate LawfulHello(name: Text, major: byte, minor: byte, network: Text, genesis: Bytes, id: Text, key: Bytes, address: Text, caps: u32) {
    && name == Ascii("sayanjali-p2p") && major == 1 && minor == 1 && Short(network) && |genesis| == 32
    && Named(id) && |key| == 64 && Named(address) && caps <= 7
  }

  function HelloBytes(name: Text, major: byte, minor: byte, network: Text, genesis: Bytes, id: Text, key: Bytes, address: Text, caps: u32, rest: Bytes): Bytes
    requires LawfulHello(name, major, minor, network, genesis, id, key, address, caps) && Short(name)
  {
    Str(name) + ([major] + ([minor] + (Str(network) + (genesis + (Str(id) + (Raw(key) + (Str(address) + (B32(caps) + rest))))))))
  }

  /** The messages that both sides take. */
  predicate LawfulMessage(m: Message) {
    match m
    case Hello(name, major, minor, network, genesis, id, key, address, caps, challenge, signature) =>
      Short(name) && LawfulHello(name, major, minor, network, genesis, id, key, address, caps) && |challenge| == 32 && |signature| == 64
    case HelloAck(name, major, minor, network, genesis, id, key, address, caps, echo, challenge, signature) =>
      && Short(name) && LawfulHello(name, major, minor, network, genesis, id, key, address, caps)
      && |echo| == 32 && |challenge| == 32 && |signature| == 64
    case HelloFinish(id, key, echo, signature) => Named(id) && |key| == 64 && |echo| == 32 && |signature| == 64
    case GetPeers(start, limit) => Short(start) && 1 <= limit <= 256
    case Peers(ps, next) => |ps| <= 256 && (forall i :: 0 <= i < |ps| ==> LawfulPeer(ps[i])) && Short(next)
    case GetHeaders(loc, stop, max) => 1 <= |loc| <= 32 && AllOf(loc, 32) && |stop| == 32 && 1 <= max <= 2048
    case Headers(xs) => |xs| <= 2048 && AllWithin(xs, 4096)
    case GetBlocks(hs) => 1 <= |hs| <= 128 && AllOf(hs, 32)
    case Blocks(xs) => |xs| <= 32 && AllWithin(xs, 524_288)
    case NewBlock(x) => |x| <= 524_288
    case NewTransaction(x) => |x| <= 65_536
    case Reject(code, _, _, reason) => 1 <= code <= 12 && Named(reason)
  }

  function Bit(b: bool): Bytes { if b then [1] else [0] }

  /** What is sent, field after field. */
  function WireBytes(m: Message): Bytes
    requires LawfulMessage(m)
  {
    match m
    case Hello(name, major, minor, network, genesis, id, key, address, caps, challenge, signature) =>
      HelloBytes(name, major, minor, network, genesis, id, key, address, caps, challenge + signature)
    case HelloAck(name, major, minor, network, genesis, id, key, address, caps, echo, challenge, signature) =>
      HelloBytes(name, major, minor, network, genesis, id, key, address, caps, echo + (challenge + signature))
    case HelloFinish(id, key, echo, signature) => Str(id) + (Raw(key) + (echo + signature))
    case GetPeers(start, limit) => Str(start) + B16(limit)
    case Peers(ps, next) => B16(|ps|) + (PeerCat(ps) + Str(next))
    case GetHeaders(loc, stop, max) => [|loc|] + (Cat(loc) + (stop + B16(max)))
    case Headers(xs) => B16(|xs|) + RawCat(xs)
    case GetBlocks(hs) => B16(|hs|) + Cat(hs)
    case Blocks(xs) => B16(|xs|) + RawCat(xs)
    case NewBlock(x) => Raw(x)
    case NewTransaction(x) => Raw(x)
    case Reject(code, retryable, close, reason) => B16(code) + (Bit(retryable) + (Bit(close) + Str(reason)))
  }

  // ---- lists of fields -----------------------------------------------------

  lemma {:induction false} CleanEach(ks: seq<Kind>, fs: seq<Field>)
    requires |ks| == |fs|
    ensures AllClean(ks, fs) <==> forall i :: 0 <= i < |ks| ==> Clean(ks[i], fs[i])
    decreases |ks|
  {
    if ks != [] {
      CleanEach(ks[1..], fs[1..]);
      assert forall i :: 0 <= i < |ks| - 1 ==> ks[1..][i] == ks[i + 1] && fs[1..][i] == fs[i + 1];
      if AllClean(ks, fs) {
        assert forall i :: 0 < i < |ks| ==> ks[i] == ks[1..][i - 1] && fs[i] == fs[1..][i - 1];
      }
    }
  }

  lemma {:induction false} CleanJoin(ks: seq<Kind>, fs: seq<Field>, js: seq<Kind>, gs: seq<Field>)
    requires |ks| == |fs| && |js| == |gs|
    ensures AllClean(ks + js, fs + gs) <==> AllClean(ks, fs) && AllClean(js, gs)
    ensures AllClean(ks, fs) ==> Written(ks + js, fs + gs) == Written(ks, fs) + Written(js, gs)
    decreases |ks|
  {
    if ks == [] {
      assert ks + js == js && fs + gs == gs;
    } else {
      CleanJoin(ks[1..], fs[1..], js, gs);
      assert (ks + js)[1..] == ks[1..] + js && (fs + gs)[1..] == fs[1..] + gs;
      if AllClean(ks, fs) { Associative(Put(ks[0].shape, fs[0]), Written(ks[1..], fs[1..]), Written(js, gs)); }
    }
  }

  lemma OneField(k: Kind, f: Field)
    ensures AllClean([k], [f]) <==> Clean(k, f)
    ensures Clean(k, f) ==> Written([k], [f]) == Put(k.shape, f)
  {
    assert [k][1..] == [] && [f][1..] == [];
    assert AllClean([], []) && Written([], []) == [];
  }

  lemma ConsField(k: Kind, f: Field, ks: seq<Kind>, fs: seq<Field>)
    requires |ks| == |fs|
    ensures AllClean([k] + ks, [f] + fs) <==> Clean(k, f) && AllClean(ks, fs)
    ensures Clean(k, f) ==> Written([k] + ks, [f] + fs) == Put(k.shape, f) + Written(ks, fs)
  {
    HeadTail(k, ks);
    HeadTail(f, fs);
  }

  lemma StrField(k: Kind, t: Text)
    requires k == Plain(SStr) || k == Filled()
    ensures Clean(k, Data(t)) <==> Short(t) && (k == Filled() ==> t != [])
    ensures Clean(k, Data(t)) ==> Put(k.shape, Data(t)) == Str(t)
  {
    if |t| <= 256 { Puts16(|t|); }
  }

  lemma RawField(max: u32, b: Bytes)
    ensures Clean(Plain(SRaw(max)), Data(b)) <==> |b| <= max
    ensures |b| <= max ==> Put(SRaw(max), Data(b)) == Raw(b)
  {
    if |b| <= max { Puts32(|b|); }
  }

  lemma FixedField(n: nat, b: Bytes)
    ensures Clean(Plain(SFixed(n)), Data(b)) <==> |b| == n
    ensures |b| == n ==> Put(SFixed(n), Data(b)) == b
  {
  }

  lemma NumField16(lo: nat, hi: nat, n: nat)
    requires hi < 0x1_0000
    ensures Clean(Both(S16, Between(lo, hi)), Num(n)) <==> lo <= n <= hi
    ensures lo <= n <= hi ==> Put(S16, Num(n)) == B16(n)
  {
    if lo <= n <= hi { Puts16(n); }
  }

  lemma CapsField(n: nat)
    ensures Clean(Capabilities(), Num(n)) <==> n <= 7
    ensures n <= 7 ==> Put(S32, Num(n)) == B32(n)
  {
    if n <= 7 { Puts32(n); }
  }

  /** A key of 64 bytes, whichever side asks for the length. */
  lemma KeyField(k: Kind, b: Bytes)
    requires k == Kind(SRaw(64), Length(64), Any) || k == Both(SRaw(64), Length(64))
    ensures Clean(k, Data(b)) <==> |b| == 64
    ensures |b| == 64 ==> Put(k.shape, Data(b)) == Raw(b)
  {
    if |b| == 64 { Puts32(|b|); }
  }

  lemma {:induction false} FixedItems(n: nat, xs: seq<Bytes>)
    ensures |Repeat([Plain(SFixed(n))], |xs|)| == |DataOf(xs)|
    ensures AllClean(Repeat([Plain(SFixed(n))], |xs|), DataOf(xs)) <==> AllOf(xs, n)
    ensures AllOf(xs, n) ==> Written(Repeat([Plain(SFixed(n))], |xs|), DataOf(xs)) == Cat(xs)
    decreases |xs|
  {
    RepeatLength([Plain(SFixed(n))], |xs|);
    if xs != [] {
      FixedItems(n, xs[1..]);
      FixedField(n, xs[0]);
      ConsField(Plain(SFixed(n)), Data(xs[0]), Repeat([Plain(SFixed(n))], |xs| - 1), DataOf(xs[1..]));
      DataHead(xs);
      FixedHead(xs, n);
    }
  }

  lemma DataHead(xs: seq<Bytes>)
    requires xs != []
    ensures DataOf(xs) == [Data(xs[0])] + DataOf(xs[1..])
  {
  }

  lemma FixedHead(xs: seq<Bytes>, n: nat)
    requires xs != []
    ensures AllOf(xs, n) <==> |xs[0]| == n && AllOf(xs[1..], n)
  {
    assert forall i :: 0 < i < |xs| ==> xs[i] == xs[1..][i - 1];
  }

  lemma WithinHead(xs: seq<Bytes>, max: u32)
    requires xs != []
    ensures AllWithin(xs, max) <==> |xs[0]| <= max && AllWithin(xs[1..], max)
  {
    assert forall i :: 0 < i < |xs| ==> xs[i] == xs[1..][i - 1];
  }

  lemma {:induction false} RawItems(max: u32, xs: seq<Bytes>)
    ensures |Repeat([Plain(SRaw(max))], |xs|)| == |DataOf(xs)|
    ensures AllClean(Repeat([Plain(SRaw(max))], |xs|), DataOf(xs)) <==> AllWithin(xs, max)
    ensures AllWithin(xs, max) ==> AllWithin(xs, 0xFFFF_FFFF) && Written(Repeat([Plain(SRaw(max))], |xs|), DataOf(xs)) == RawCat(xs)
    decreases |xs|
  {
    RepeatLength([Plain(SRaw(max))], |xs|);
    if xs != [] {
      RawItems(max, xs[1..]);
      RawField(max, xs[0]);
      ConsField(Plain(SRaw(max)), Data(xs[0]), Repeat([Plain(SRaw(max))], |xs| - 1), DataOf(xs[1..]));
      DataHead(xs);
      WithinHead(xs, max);
    }
  }

  // ---- peers -----------------------------------------------------------------

  function PeerKinds(): seq<Kind> { [Filled(), Filled(), Both(S16, Between(1, 0xFFFF)), Capabilities()] }
  function PeerFields(p: Peer): seq<Field> { [Data(p.nodeId), Data(p.host), Num(p.port), Num(p.capabilities)] }

  lemma PeerClean(p: Peer)
    ensures AllClean(PeerKinds(), PeerFields(p)) <==> LawfulPeer(p)
    ensures LawfulPeer(p) ==> Written(PeerKinds(), PeerFields(p)) == PeerBytes(p)
  {
    var port, caps := Both(S16, Between(1, 0xFFFF)), Capabilities();
    StrField(Filled(), p.nodeId);
    StrField(Filled(), p.host);
    NumField16(1, 0xFFFF, p.port);
    CapsField(p.capabilities);
    OneField(caps, Num(p.capabilities));
    ConsField(port, Num(p.port), [caps], [Num(p.capabilities)]);
    assert [port] + [caps] == [port, caps] && [Num(p.port)] + [Num(p.capabilities)] == [Num(p.port), Num(p.capabilities)];
    ConsField(Filled(), Data(p.host), [port, caps], [Num(p.port), Num(p.capabilities)]);
    var ks, fs := [Filled(), port, caps], [Data(p.host), Num(p.port), Num(p.capabilities)];
    assert [Filled()] + [port, caps] == ks && [Data(p.host)] + [Num(p.port), Num(p.capabilities)] == fs;
    ConsField(Filled(), Data(p.nodeId), ks, fs);
    assert [Filled()] + ks == PeerKinds() && [Data(p.nodeId)] + fs == PeerFields(p);
  }

  lemma EntriesHead(ps: seq<Peer>)
    requires ps != []
    ensures EntriesOf(ps) == PeerFields(ps[0]) + EntriesOf(ps[1..])
  {
    forall i | 0 <= i < 4 * |ps|
      ensures EntriesOf(ps)[i] == (PeerFields(ps[0]) + EntriesOf(ps[1..]))[i]
    {
      if i >= 4 {
        assert (i - 4) / 4 == i / 4 - 1 && (i - 4) % 4 == i % 4;
        assert EntriesOf(ps[1..])[i - 4] == EntryField(ps[1..][i / 4 - 1], i % 4);
      }
    }
  }

  predicate AllLawful(ps: seq<Peer>) { forall i :: 0 <= i < |ps| ==> LawfulPeer(ps[i]) }

  lemma LawfulHead(ps: seq<Peer>)
    requires ps != []
    ensures AllLawful(ps) <==> LawfulPeer(ps[0]) && AllLawful(ps[1..])
  {
    assert forall i :: 0 < i < |ps| ==> ps[i] == ps[1..][i - 1];
  }

  lemma OnePeerMore(p: Peer, ks: seq<Kind>, fs: seq<Field>)
    requires |ks| == |fs|
    ensures AllClean(PeerKinds() + ks, PeerFields(p) + fs) <==> LawfulPeer(p) && AllClean(ks, fs)
    ensures LawfulPeer(p) ==> Written(PeerKinds() + ks, PeerFields(p) + fs) == PeerBytes(p) + Written(ks, fs)
  {
    PeerClean(p);
    CleanJoin(PeerKinds(), PeerFields(p), ks, fs);
  }

  lemma {:induction false} PeersClean(ps: seq<Peer>)
    ensures |Repeat(PeerKinds(), |ps|)| == |EntriesOf(ps)|
    ensures AllClean(Repeat(PeerKinds(), |ps|), EntriesOf(ps)) <==> AllLawful(ps)
    ensures AllLawful(ps) ==> Written(Repeat(PeerKinds(), |ps|), EntriesOf(ps)) == PeerCat(ps)
    decreases |ps|
  {
    RepeatLength(PeerKinds(), |ps|);
    if ps != [] {
      PeersClean(ps[1..]);
      EntriesHead(ps);
      LawfulHead(ps);
      OnePeerMore(ps[0], Repeat(PeerKinds(), |ps| - 1), EntriesOf(ps[1..]));
    }
  }

  // ---- message by message ------------------------------------------------------

  /** Both sides take the message exactly when it is lawful, and then its payload is these bytes. */
  predicate Pinned(m: Message) {
    (Proper(m) <==> LawfulMessage(m)) && (LawfulMessage(m) ==> Payload(m) == WireBytes(m))
  }

  lemma GetPeersPinned(start: Text, limit: u16)
    ensures Pinned(GetPeers(start, limit))
  {
    var k := Both(S16, Between(1, MAX_PEERS));
    StrField(Plain(SStr), start);
    NumField16(1, 256, limit);
    OneField(k, Num(limit));
    ConsField(Plain(SStr), Data(start), [k], [Num(limit)]);
    assert [Plain(SStr)] + [k] == Kinds(GET_PEERS, 0) && [Data(start)] + [Num(limit)] == FieldsOf(GetPeers(start, limit));
  }

  lemma PlainPinned(m: Message)
    requires m.NewBlock? || m.NewTransaction?
    ensures Pinned(m)
  {
    var max: u32 := if m.NewBlock? then MAX_BLOCK else MAX_TRANSACTION;
    RawField(max, m.item);
    OneField(Plain(SRaw(max)), Data(m.item));
  }

  lemma CountedPinned(m: Message, k: Kind, ks: seq<Kind>, fs: seq<Field>)
    requires |ks| == |fs| && Kinds(TypeOf(m), Count(m)) == [k] + ks && FieldsOf(m) == [Num(Count(m))] + fs
    ensures Proper(m) <==> Clean(k, Num(Count(m))) && AllClean(ks, fs)
    ensures Proper(m) ==> Payload(m) == Put(k.shape, Num(Count(m))) + Written(ks, fs)
  {
    ConsField(k, Num(Count(m)), ks, fs);
  }

  lemma ListPinned(m: Message, most: nat, max: u32)
    requires (m.Headers? && most == 2048 && max == 4096) || (m.Blocks? && most == 32 && max == 524_288)
    ensures Pinned(m)
  {
    RawItems(max, m.items);
    NumField16(0, most, |m.items|);
    ListKinds(m, most, max);
    CountedPinned(m, Both(S16, Between(0, most)), Repeat([Plain(SRaw(max))], |m.items|), DataOf(m.items));
  }

  lemma ListKinds(m: Message, most: nat, max: u32)
    requires (m.Headers? && most == 2048 && max == 4096) || (m.Blocks? && most == 32 && max == 524_288)
    ensures Kinds(TypeOf(m), Count(m)) == [Both(S16, Between(0, most))] + Repeat([Plain(SRaw(max))], |m.items|)
    ensures FieldsOf(m) == [Num(Count(m))] + DataOf(m.items)
  {
    assert Repeat([Plain(SRaw(max))], |m.items|) + [] == Repeat([Plain(SRaw(max))], |m.items|);
    assert DataOf(m.items) + [] == DataOf(m.items);
  }

  lemma GetBlocksPinned(hs: seq<Bytes>)
    ensures Pinned(GetBlocks(hs))
  {
    var k := Both(S16, Between(1, 128));
    FixedItems(32, hs);
    NumField16(1, 128, |hs|);
    var ks, fs := Repeat([Plain(SFixed(32))], |hs|), DataOf(hs);
    assert ks + [] == ks && fs + [] == fs;
    CountedPinned(GetBlocks(hs), k, ks, fs);
  }

  lemma TwoFields(k: Kind, f: Field, j: Kind, g: Field)
    ensures AllClean([k, j], [f, g]) <==> Clean(k, f) && Clean(j, g)
    ensures Clean(k, f) && Clean(j, g) ==> Written([k, j], [f, g]) == Put(k.shape, f) + Put(j.shape, g)
  {
    OneField(j, g);
    ConsField(k, f, [j], [g]);
    assert [k] + [j] == [k, j] && [f] + [g] == [f, g];
  }

  lemma CountByte(n: nat)
    ensures Clean(Both(S8, Between(1, 32)), Num(n)) <==> 1 <= n <= 32
    ensures 1 <= n <= 32 ==> Put(S8, Num(n)) == [n]
  {
  }

  lemma GetHeadersPinned(loc: seq<Bytes>, stop: Bytes, max: u16)
    ensures Pinned(GetHeaders(loc, stop, max))
  {
    var k, most := Both(S8, Between(1, 32)), Both(S16, Between(1, 2048));
    CountByte(|loc|);
    FixedItems(32, loc);
    FixedField(32, stop);
    NumField16(1, 2048, max);
    TwoFields(Plain(SFixed(32)), Data(stop), most, Num(max));
    var ks, fs := Repeat([Plain(SFixed(32))], |loc|), DataOf(loc);
    var tail, end := [Plain(SFixed(32)), most], [Data(stop), Num(max)];
    CleanJoin(ks, fs, tail, end);
    CountedPinned(GetHeaders(loc, stop, max), k, ks + tail, fs + end);
  }

  lemma PeersPinned(ps: seq<Peer>, next: Text)
    ensures Pinned(Peers(ps, next))
  {
    var k := Both(S16, Between(0, 256));
    PeersClean(ps);
    NumField16(0, 256, |ps|);
    StrField(Plain(SStr), next);
    OneField(Plain(SStr), Data(next));
    CleanJoin(Repeat(PeerKinds(), |ps|), EntriesOf(ps), [Plain(SStr)], [Data(next)]);
    CountedPinned(Peers(ps, next), k, Repeat(PeerKinds(), |ps|) + [Plain(SStr)], EntriesOf(ps) + [Data(next)]);
  }

  lemma FlagField(x: bool)
    ensures Clean(Both(S8, Between(0, 1)), Flag(x)) && Put(S8, Flag(x)) == Bit(x)
  {
  }

  lemma ReasonField(reason: Text)
    ensures Clean(Both(SStr, NonEmpty), Data(reason)) <==> Named(reason)
    ensures Named(reason) ==> Put(SStr, Data(reason)) == Str(reason)
  {
    if |reason| <= 256 { Puts16(|reason|); }
  }

  lemma RejectPinned(code: u16, retryable: bool, close: bool, reason: Text)
    ensures Pinned(Reject(code, retryable, close, reason))
  {
    var c, b, r := Both(S16, Between(1, 12)), Both(S8, Between(0, 1)), Both(SStr, NonEmpty);
    NumField16(1, 12, code);
    FlagField(retryable);
    FlagField(close);
    ReasonField(reason);
    TwoFields(c, Num(code), b, Flag(retryable));
    TwoFields(b, Flag(close), r, Data(reason));
    CleanJoin([c, b], [Num(code), Flag(retryable)], [b, r], [Flag(close), Data(reason)]);
    RejectLayout(code, retryable, close, reason);
    if Named(reason) { Associative(B16(code), Bit(retryable), Bit(close) + Str(reason)); }
  }

  lemma RejectLayout(code: u16, retryable: bool, close: bool, reason: Text)
    ensures var c, b, r := Both(S16, Between(1, 12)), Both(S8, Between(0, 1)), Both(SStr, NonEmpty);
            && Kinds(REJECT, 0) == [c, b] + [b, r]
            && FieldsOf(Reject(code, retryable, close, reason)) == [Num(code), Flag(retryable)] + [Flag(close), Data(reason)]
  {
  }

  lemma FinishPinned(id: Text, key: Bytes, echo: Bytes, signature: Bytes)
    ensures Pinned(HelloFinish(id, key, echo, signature))
  {
    var k := Both(SRaw(64), Length(64));
    StrField(Filled(), id);
    KeyField(k, key);
    FixedField(32, echo);
    FixedField(64, signature);
    OneField(Plain(SFixed(64)), Data(signature));
    ConsField(Plain(SFixed(32)), Data(echo), [Plain(SFixed(64))], [Data(signature)]);
    var ks, fs := [Plain(SFixed(32)), Plain(SFixed(64))], [Data(echo), Data(signature)];
    assert [Plain(SFixed(32))] + [Plain(SFixed(64))] == ks && [Data(echo)] + [Data(signature)] == fs;
    ConsField(k, Data(key), ks, fs);
    ConsField(Filled(), Data(id), [k] + ks, [Data(key)] + fs);
    assert [Filled()] + ([k] + ks) == Kinds(HELLO_FINISH, 0);
    assert [Data(id)] + ([Data(key)] + fs) == FieldsOf(HelloFinish(id, key, echo, signature));
  }

  // ---- the two introductions ----------------------------------------------------

  lemma NameField(t: Text)
    ensures Clean(NameKind(), Data(t)) <==> Short(t) && t == Ascii("sayanjali-p2p")
    ensures Short(t) ==> Put(SStr, Data(t)) == Str(t)
  {
    StrField(Plain(SStr), t);
    assert Clean(NameKind(), Data(t)) <==> Clean(Plain(SStr), Data(t)) && t == PROTOCOL_NAME;
  }

  lemma VersionField(v: byte)
    ensures Clean(VersionKind(), Num(v)) <==> v == 1
    ensures Put(S8, Num(v)) == [v]
  {
  }

  function NameKind(): Kind { Kind(SStr, Any, Exactly(PROTOCOL_NAME)) }
  function VersionKind(): Kind { Kind(S8, Any, Between(1, 1)) }
  function KeyKind(): Kind { Kind(SRaw(64), Length(64), Any) }

  /** Four fields, then two, then three. */
  function Start(): seq<Kind> { [NameKind(), VersionKind(), VersionKind(), Plain(SStr)] }
  function Middle(): seq<Kind> { [Plain(SFixed(32)), Filled()] }
  function End(): seq<Kind> { [KeyKind(), Filled(), Capabilities()] }

  lemma EndClean(key: Bytes, address: Text, caps: u32, ks: seq<Kind>, fs: seq<Field>)
    requires |ks| == |fs|
    ensures AllClean(End() + ks, [Data(key), Data(address), Num(caps)] + fs) <==> |key| == 64 && Named(address) && caps <= 7 && AllClean(ks, fs)
    ensures |key| == 64 && Named(address) && caps <= 7 && AllClean(ks, fs) ==>
              Written(End() + ks, [Data(key), Data(address), Num(caps)] + fs) == Raw(key) + (Str(address) + (B32(caps) + Written(ks, fs)))
  {
    KeyField(KeyKind(), key);
    StrField(Filled(), address);
    CapsField(caps);
    ConsField(Capabilities(), Num(caps), ks, fs);
    ConsField(Filled(), Data(address), [Capabilities()] + ks, [Num(caps)] + fs);
    ConsField(KeyKind(), Data(key), [Filled()] + ([Capabilities()] + ks), [Data(address)] + ([Num(caps)] + fs));
    ThreeMore(KeyKind(), Filled(), Capabilities(), ks);
    ThreeMore(Data(key), Data(address), Num(caps), fs);
  }

  lemma MiddleClean(genesis: Bytes, id: Text, ks: seq<Kind>, fs: seq<Field>)
    requires |ks| == |fs|
    ensures AllClean(Middle() + ks, [Data(genesis), Data(id)] + fs) <==> |genesis| == 32 && Named(id) && AllClean(ks, fs)
    ensures |genesis| == 32 && Named(id) && AllClean(ks, fs) ==>
              Written(Middle() + ks, [Data(genesis), Data(id)] + fs) == genesis + (Str(id) + Written(ks, fs))
  {
    FixedField(32, genesis);
    StrField(Filled(), id);
    ConsField(Filled(), Data(id), ks, fs);
    ConsField(Plain(SFixed(32)), Data(genesis), [Filled()] + ks, [Data(id)] + fs);
    TwoMore(Plain(SFixed(32)), Filled(), ks);
    TwoMore(Data(genesis), Data(id), fs);
  }

  lemma StartClean(name: Text, major: byte, minor: byte, network: Text, ks: seq<Kind>, fs: seq<Field>)
    requires |ks| == |fs|
    ensures AllClean(Start() + ks, [Data(name), Num(major), Num(minor), Data(network)] + fs) <==>
            Short(name) && name == Ascii("sayanjali-p2p") && major == 1 && minor == 1 && Short(network) && AllClean(ks, fs)
    ensures AllClean(Start() + ks, [Data(name), Num(major), Num(minor), Data(network)] + fs) ==>
              Written(Start() + ks, [Data(name), Num(major), Num(minor), Data(network)] + fs)
              == Str(name) + ([major] + ([minor] + (Str(network) + Written(ks, fs))))
  {
    NameField(name);
    VersionField(major);
    VersionField(minor);
    StrField(Plain(SStr), network);
    ConsField(Plain(SStr), Data(network), ks, fs);
    ConsField(VersionKind(), Num(minor), [Plain(SStr)] + ks, [Data(network)] + fs);
    var ks2, fs2 := [VersionKind()] + ([Plain(SStr)] + ks), [Num(minor)] + ([Data(network)] + fs);
    ConsField(VersionKind(), Num(major), ks2, fs2);
    ConsField(NameKind(), Data(name), [VersionKind()] + ks2, [Num(major)] + fs2);
    FourMore(NameKind(), VersionKind(), VersionKind(), Plain(SStr), ks);
    FourMore(Data(name), Num(major), Num(minor), Data(network), fs);
  }

  lemma TwoMore<T>(a: T, b: T, s: seq<T>)
    ensures [a, b] + s == [a] + ([b] + s)
  {
  }

  lemma ThreeMore<T>(a: T, b: T, c: T, s: seq<T>)
    ensures [a, b, c] + s == [a] + ([b] + ([c] + s))
  {
  }

  lemma FourMore<T>(a: T, b: T, c: T, d: T, s: seq<T>)
    ensures [a, b, c, d] + s == [a] + ([b] + ([c] + ([d] + s)))
  {
  }

  lemma NineMore<T>(s: seq<T>, four: seq<T>, two: seq<T>, three: seq<T>, rest: seq<T>)
    requires s == four + two + three
    ensures s + rest == four + (two + (three + rest))
  {
  }

  function HelloFields(name: Text, major: byte, minor: byte, network: Text, genesis: Bytes, id: Text, key: Bytes, address: Text, caps: u32): seq<Field> {
    [Data(name), Num(major), Num(minor), Data(network), Data(genesis), Data(id), Data(key), Data(address), Num(caps)]
  }

  lemma HelloFieldsSplit(name: Text, major: byte, minor: byte, network: Text, genesis: Bytes, id: Text, key: Bytes, address: Text, caps: u32)
    ensures HelloFields(name, major, minor, network, genesis, id, key, address, caps)
         == [Data(name), Num(major), Num(minor), Data(network)] + [Data(genesis), Data(id)] + [Data(key), Data(address), Num(caps)]
    ensures Introduction() == Start() + Middle() + End()
  {
  }

  lemma IntroductionClean(name: Text, major: byte, minor: byte, network: Text, genesis: Bytes, id: Text, key: Bytes, address: Text, caps: u32,
                          ks: seq<Kind>, fs: seq<Field>)
    requires |ks| == |fs|
    ensures var gs := HelloFields(name, major, minor, network, genesis, id, key, address, caps);
            var lawful := Short(name) && LawfulHello(name, major, minor, network, genesis, id, key, address, caps);
            && |Introduction()| == |gs|
            && (AllClean(Introduction() + ks, gs + fs) <==> lawful && AllClean(ks, fs))
            && (lawful && AllClean(ks, fs) ==>
                  (Written(Introduction() + ks, gs + fs) == HelloBytes(name, major, minor, network, genesis, id, key, address, caps, Written(ks, fs))))
  {
    var gs := HelloFields(name, major, minor, network, genesis, id, key, address, caps);
    var four, two, three := [Data(name), Num(major), Num(minor), Data(network)], [Data(genesis), Data(id)], [Data(key), Data(address), Num(caps)];
    HelloFieldsSplit(name, major, minor, network, genesis, id, key, address, caps);
    NineMore(Introduction(), Start(), Middle(), End(), ks);
    NineMore(gs, four, two, three, fs);
    EndClean(key, address, caps, ks, fs);
    MiddleClean(genesis, id, End() + ks, three + fs);
    StartClean(name, major, minor, network, Middle() + (End() + ks), two + (three + fs));
  }

  lemma HelloPinned(m: Message)
    requires m.Hello?
    ensures Pinned(m)
  {
    FixedField(32, m.challenge);
    FixedField(64, m.signature);
    var ks, fs := [Plain(SFixed(32)), Plain(SFixed(64))], [Data(m.challenge), Data(m.signature)];
    TwoFields(Plain(SFixed(32)), Data(m.challenge), Plain(SFixed(64)), Data(m.signature));
    IntroductionClean(m.protocolName, m.major, m.minor, m.network, m.genesis, m.nodeId, m.publicKey, m.address, m.capabilities, ks, fs);
    assert Kinds(HELLO, 0) == Introduction() + ks;
    assert FieldsOf(m) == HelloFields(m.protocolName, m.major, m.minor, m.network, m.genesis, m.nodeId, m.publicKey, m.address, m.capabilities) + fs;
  }

  lemma HelloAckPinned(m: Message)
    requires m.HelloAck?
    ensures Pinned(m)
  {
    FixedField(32, m.echo);
    FixedField(32, m.challenge);
    FixedField(64, m.signature);
    var ks, fs := [Plain(SFixed(32)), Plain(SFixed(64))], [Data(m.challenge), Data(m.signature)];
    TwoFields(Plain(SFixed(32)), Data(m.challenge), Plain(SFixed(64)), Data(m.signature));
    ConsField(Plain(SFixed(32)), Data(m.echo), ks, fs);
    IntroductionClean(m.protocolName, m.major, m.minor, m.network, m.genesis, m.nodeId, m.publicKey, m.address, m.capabilities,
                      [Plain(SFixed(32))] + ks, [Data(m.echo)] + fs);
    assert Kinds(HELLO_ACK, 0) == Introduction() + ([Plain(SFixed(32))] + ks);
    assert FieldsOf(m) == HelloFields(m.protocolName, m.major, m.minor, m.network, m.genesis, m.nodeId, m.publicKey, m.address, m.capabilities) + ([Data(m.echo)] + fs);
  }

  lemma AllPinned(m: Message)
    ensures Pinned(m)
  {
    match m
    case Hello(_, _, _, _, _, _, _, _, _, _, _) => HelloPinned(m);
    case HelloAck(_, _, _, _, _, _, _, _, _, _, _, _) => HelloAckPinned(m);
    case HelloFinish(id, key, echo, signature) => FinishPinned(id, key, echo, signature);
    case GetPeers(start, limit) => GetPeersPinned(start, limit);
    case Peers(ps, next) => PeersPinned(ps, next);
    case GetHeaders(loc, stop, max) => GetHeadersPinned(loc, stop, max);
    case GetBlocks(hs) => GetBlocksPinned(hs);
    case Reject(code, retryable, close, reason) => RejectPinned(code, retryable, close, reason);
    case NewBlock(_) => PlainPinned(m);
    case NewTransaction(_) => PlainPinned(m);
    case Headers(_) => ListPinned(m, 2048, 4096);
    case Blocks(_) => ListPinned(m, 32, 524_288);
  }

  // ---- whole frames --------------------------------------------------------------

  /** `BigEndian` digit by digit. */
  lemma Digits8(n: u64)
    ensures forall i :: 0 <= i < 8 ==> PutU64(n)[i] == n / Pow256(7 - i) % 256
  {
    forall i | 0 <= i < 8
      ensures PutU64(n)[i] == n / Pow256(7 - i) % 256
    {
      BigEndianDigit(n, 8, i);
    }
  }

  function Code(m: Message): nat {
    match m
    case Hello(_, _, _, _, _, _, _, _, _, _, _) => 1
    case HelloAck(_, _, _, _, _, _, _, _, _, _, _, _) => 2
    case GetPeers(_, _) => 3
    case Peers(_, _) => 4
    case GetHeaders(_, _, _) => 5
    case Headers(_) => 6
    case GetBlocks(_) => 7
    case Blocks(_) => 8
    case NewBlock(_) => 9
    case NewTransaction(_) => 10
    case Reject(_, _, _, _) => 11
    case HelloFinish(_, _, _, _) => 12
  }

  /** Announcements carry no request id, a rejection any, all other messages one. */
  predicate IdLawful(m: Message, id: u64) {
    if m.NewBlock? || m.NewTransaction? then id == 0 else m.Reject? || id != 0
  }

  lemma CodeIsType(m: Message)
    ensures TypeOf(m) == Code(m)
  {
  }

  lemma LawfulCounts(m: Message)
    requires LawfulMessage(m)
    ensures CountKind(TypeOf(m)).Some? ==> Obeys(Num(Count(m)), CountKind(TypeOf(m)).value.send)
  {
  }

  lemma IdIsOk(m: Message, id: u64)
    ensures IdLawful(m, id) <==> IdOk(Code(m), id) && (m.NewBlock? || m.NewTransaction? ==> id == 0)
  {
  }

  /** What a lawful message is sent as, and when it can be. */
  lemma FrameBytes(m: Message, id: u64)
    requires LawfulMessage(m)
    ensures EncodeMessage(m, id).Some? <==> IdLawful(m, id) && |WireBytes(m)| <= 4_194_284
    ensures EncodeMessage(m, id).Some? ==>
              EncodeMessage(m, id).value ==
              (([83, 89, 74, 80] + [1, 1]) + (B16(Code(m)) + (PutU64(id) + B32(|WireBytes(m)|)))) + WireBytes(m)
  {
    AllPinned(m);
    CodeIsType(m);
    LawfulCounts(m);
    IdIsOk(m, id);
    if |WireBytes(m)| <= 4_194_284 { FrameHeader(m, id); }
  }

  lemma FrameHeader(m: Message, id: u64)
    requires LawfulMessage(m) && Payload(m) == WireBytes(m) && |WireBytes(m)| <= 4_194_284 && TypeOf(m) == Code(m)
    ensures Header(FrameOf(m, id)) == ([83, 89, 74, 80] + [1, 1]) + (B16(Code(m)) + (PutU64(id) + B32(|WireBytes(m)|)))
  {
    HeaderBytes(FrameOf(m, id));
  }

  lemma HeaderBytes(f: Frame)
    requires |f.payload| < 0x1_0000_0000
    ensures Header(f) == ([83, 89, 74, 80] + [f.major, f.minor]) + (B16(f.kind) + (PutU64(f.requestId) + B32(|f.payload|)))
  {
    Puts16(f.kind);
    Puts32(|f.payload|);
    assert |f.payload| % 0x1_0000_0000 == |f.payload|;
    MagicBytes();
  }

  lemma MagicBytes()
    ensures MAGIC == [83, 89, 74, 80]
  {
  }

  /** A message that is sent is accepted, as itself, exactly when it is lawful. */
  lemma AcceptedIffLawful(m: Message, id: u64)
    requires EncodeMessage(m, id).Some?
    ensures DecodeFrame(EncodeMessage(m, id).value).Some?
    ensures DecodeMessage(DecodeFrame(EncodeMessage(m, id).value).value) == if LawfulMessage(m) then Some(m) else None
  {
    AllPinned(m);
    MessageRoundTrip(m, id);
  }
}
