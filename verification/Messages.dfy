/** The twelve peer-to-peer messages over frames and fields. (internal/p2p/messages.go) */
module Messages {
  import opened Base
  import opened Frames
  import opened Fields

  const MAX_PEERS: nat := 256
  const MAX_LOCATOR: nat := 32
  const MAX_HEADERS: nat := 2048
  const MAX_BLOCK_IDS: nat := 128
  const MAX_BLOCKS: nat := 32
  const MAX_BLOCK: u32 := 512 * 1024
  const MAX_TRANSACTION: u32 := 64 * 1024
  const MAX_HEADER: u32 := 4096
  const PROTOCOL_NAME: Text := Ascii("sayanjali-p2p")

  datatype Peer = Peer(nodeId: Text, host: Text, port: u16, capabilities: u32)

  datatype Message =
    | Hello(protocolName: Text, major: byte, minor: byte, network: Text, genesis: Bytes, nodeId: Text, publicKey: Bytes,
            address: Text, capabilities: u32, challenge: Bytes, signature: Bytes)
    | HelloAck(protocolName: Text, major: byte, minor: byte, network: Text, genesis: Bytes, nodeId: Text, publicKey: Bytes,
               address: Text, capabilities: u32, echo: Bytes, challenge: Bytes, signature: Bytes)
    | HelloFinish(nodeId: Text, publicKey: Bytes, echo: Bytes, signature: Bytes)
    | GetPeers(startAfter: Text, limit: u16)
    | Peers(entries: seq<Peer>, next: Text)
    | GetHeaders(locator: seq<Bytes>, stop: Bytes, maxCount: u16)
    | Headers(items: seq<Bytes>)
    | GetBlocks(hashes: seq<Bytes>)
    | Blocks(items: seq<Bytes>)
    | NewBlock(item: Bytes)
    | NewTransaction(item: Bytes)
    | Reject(code: u16, retryable: bool, close: bool, reason: Text)

  function TypeOf(m: Message): u16 {
    match m
    case Hello(_, _, _, _, _, _, _, _, _, _, _) => HELLO
    case HelloAck(_, _, _, _, _, _, _, _, _, _, _, _) => HELLO_ACK
    case HelloFinish(_, _, _, _) => HELLO_FINISH
    case GetPeers(_, _) => GET_PEERS
    case Peers(_, _) => PEERS
    case GetHeaders(_, _, _) => GET_HEADERS
    case Headers(_) => HEADERS
    case GetBlocks(_) => GET_BLOCKS
    case Blocks(_) => BLOCKS
    case NewBlock(_) => NEW_BLOCK
    case NewTransaction(_) => NEW_TRANSACTION
    case Reject(_, _, _, _) => REJECT
  }

  // ---- layouts -------------------------------------------------------------

  function Plain(s: Shape): Kind { Kind(s, Any, Any) }
  function Both(s: Shape, r: Rule): Kind { Kind(s, r, r) }
  function Filled(): Kind { Kind(SStr, Any, NonEmpty) }
  function Capabilities(): Kind { Both(S32, Between(0, 7)) }

  /** The introduction shared by both hello messages; a decoder takes any key up to 64 bytes, an encoder only a full one. */
  function Introduction(): seq<Kind> {
    [Kind(SStr, Any, Exactly(PROTOCOL_NAME)), Kind(S8, Any, Between(1, 1)), Kind(S8, Any, Between(1, 1)), Plain(SStr), Plain(SFixed(32)),
     Filled(), Kind(SRaw(64), Length(64), Any), Filled(), Capabilities()]
  }

  function Repeat(ks: seq<Kind>, n: nat): seq<Kind>
  {
    if n == 0 then [] else ks + Repeat(ks, n - 1)
  }

  /** The list length of a message with a counted list. */
  function CountKind(t: u16): Option<Kind> {
    if t == PEERS then Some(Both(S16, Between(0, MAX_PEERS)))
    else if t == GET_HEADERS then Some(Both(S8, Between(1, MAX_LOCATOR)))
    else if t == HEADERS then Some(Both(S16, Between(0, MAX_HEADERS)))
    else if t == GET_BLOCKS then Some(Both(S16, Between(1, MAX_BLOCK_IDS)))
    else if t == BLOCKS then Some(Both(S16, Between(0, MAX_BLOCKS)))
    else None
  }

  function ItemKinds(t: u16): seq<Kind> {
    if t == PEERS then [Filled(), Filled(), Both(S16, Between(1, 0xFFFF)), Capabilities()]
    else if t == GET_HEADERS || t == GET_BLOCKS then [Plain(SFixed(32))]
    else if t == HEADERS then [Plain(SRaw(MAX_HEADER))]
    else [Plain(SRaw(MAX_BLOCK))]
  }

  /** The kinds after the list, or all kinds of a message without one. */
  function TailKinds(t: u16): seq<Kind> {
    if t == HELLO then Introduction() + [Plain(SFixed(32)), Plain(SFixed(64))]
    else if t == HELLO_ACK then Introduction() + [Plain(SFixed(32)), Plain(SFixed(32)), Plain(SFixed(64))]
    else if t == HELLO_FINISH then [Filled(), Both(SRaw(64), Length(64)), Plain(SFixed(32)), Plain(SFixed(64))]
    else if t == GET_PEERS then [Plain(SStr), Both(S16, Between(1, MAX_PEERS))]
    else if t == PEERS then [Plain(SStr)]
    else if t == GET_HEADERS then [Plain(SFixed(32)), Both(S16, Between(1, MAX_HEADERS))]
    else if t == NEW_BLOCK then [Plain(SRaw(MAX_BLOCK))]
    else if t == NEW_TRANSACTION then [Plain(SRaw(MAX_TRANSACTION))]
    else if t == REJECT then [Both(S16, Between(1, 12)), Both(S8, Between(0, 1)), Both(S8, Between(0, 1)), Both(SStr, NonEmpty)]
    else []
  }

  function Kinds(t: u16, n: nat): seq<Kind> {
    match CountKind(t)
    case None => TailKinds(t)
    case Some(k) => [k] + (Repeat(ItemKinds(t), n) + TailKinds(t))
  }

  // ---- messages as fields --------------------------------------------------

  function Flag(b: bool): Field { Num(if b then 1 else 0) }

  function DataOf(xs: seq<Bytes>): seq<Field> { seq(|xs|, i requires 0 <= i < |xs| => Data(xs[i])) }

  function EntryField(p: Peer, j: nat): Field {
    if j == 0 then Data(p.nodeId) else if j == 1 then Data(p.host) else if j == 2 then Num(p.port) else Num(p.capabilities)
  }

  function EntriesOf(ps: seq<Peer>): seq<Field> { seq(4 * |ps|, i requires 0 <= i < 4 * |ps| => EntryField(ps[i / 4], i % 4)) }

  function Count(m: Message): nat {
    match m
    case Peers(ps, _) => |ps|
    case GetHeaders(loc, _, _) => |loc|
    case Headers(xs) => |xs|
    case GetBlocks(hs) => |hs|
    case Blocks(xs) => |xs|
    case _ => 0
  }

  function FieldsOf(m: Message): seq<Field> {
    match m
    case Hello(name, major, minor, network, genesis, id, key, address, caps, challenge, signature) =>
      [Data(name), Num(major), Num(minor), Data(network), Data(genesis), Data(id), Data(key), Data(address), Num(caps),
       Data(challenge), Data(signature)]
    case HelloAck(name, major, minor, network, genesis, id, key, address, caps, echo, challenge, signature) =>
      [Data(name), Num(major), Num(minor), Data(network), Data(genesis), Data(id), Data(key), Data(address), Num(caps),
       Data(echo), Data(challenge), Data(signature)]
    case HelloFinish(id, key, echo, signature) => [Data(id), Data(key), Data(echo), Data(signature)]
    case GetPeers(start, limit) => [Data(start), Num(limit)]
    case Peers(ps, next) => [Num(|ps|)] + (EntriesOf(ps) + [Data(next)])
    case GetHeaders(loc, stop, max) => [Num(|loc|)] + (DataOf(loc) + [Data(stop), Num(max)])
    case Headers(xs) => [Num(|xs|)] + (DataOf(xs) + [])
    case GetBlocks(hs) => [Num(|hs|)] + (DataOf(hs) + [])
    case Blocks(xs) => [Num(|xs|)] + (DataOf(xs) + [])
    case NewBlock(x) => [Data(x)]
    case NewTransaction(x) => [Data(x)]
    case Reject(code, retryable, close, reason) => [Num(code), Flag(retryable), Flag(close), Data(reason)]
  }

  lemma {:induction false} RepeatLength(ks: seq<Kind>, n: nat)
    ensures |Repeat(ks, n)| == |ks| * n
  {
    if n > 0 { RepeatLength(ks, n - 1); }
  }

  /** Every message has as many fields as its layout asks for. */
  lemma LayoutMatches(m: Message)
    ensures |FieldsOf(m)| == |Kinds(TypeOf(m), Count(m))|
  {
    if CountKind(TypeOf(m)).Some? { RepeatLength(ItemKinds(TypeOf(m)), Count(m)); }
  }

  function D(f: Field): Bytes { if f.Data? then f.b else [] }
  function N8(f: Field): byte { if f.Num? && f.n < 0x100 then f.n else 0 }
  function N16(f: Field): u16 { if f.Num? && f.n < 0x1_0000 then f.n else 0 }
  function N32(f: Field): u32 { if f.Num? && f.n < 0x1_0000_0000 then f.n else 0 }

  /** `n` byte fields from position `from` on. */
  function Items(fs: seq<Field>, from: nat, n: nat): seq<Bytes>
    requires from + n <= |fs|
  { seq(n, i requires 0 <= i < n => D(fs[from + i])) }

  function Entries(fs: seq<Field>, n: nat): seq<Peer>
    requires 1 + 4 * n <= |fs|
  {
    seq(n, i requires 0 <= i < n => Peer(D(fs[1 + 4 * i]), D(fs[2 + 4 * i]), N16(fs[3 + 4 * i]), N32(fs[4 + 4 * i])))
  }

  function Width(t: u16, n: nat): nat {
    if CountKind(t).Some? then 1 + |ItemKinds(t)| * n + |TailKinds(t)| else |TailKinds(t)|
  }

  /** What a decoder builds from the fields it read. */
  function Build(t: u16, n: nat, fs: seq<Field>): Option<Message>
    requires |fs| == Width(t, n)
  {
    if t == HELLO then
      Some(Hello(D(fs[0]), N8(fs[1]), N8(fs[2]), D(fs[3]), D(fs[4]), D(fs[5]), D(fs[6]), D(fs[7]), N32(fs[8]), D(fs[9]), D(fs[10])))
    else if t == HELLO_ACK then
      Some(HelloAck(D(fs[0]), N8(fs[1]), N8(fs[2]), D(fs[3]), D(fs[4]), D(fs[5]), D(fs[6]), D(fs[7]), N32(fs[8]), D(fs[9]), D(fs[10]), D(fs[11])))
    else if t == HELLO_FINISH then Some(HelloFinish(D(fs[0]), D(fs[1]), D(fs[2]), D(fs[3])))
    else if t == GET_PEERS then Some(GetPeers(D(fs[0]), N16(fs[1])))
    else if t == PEERS then Some(Peers(Entries(fs, n), D(fs[1 + 4 * n])))
    else if t == GET_HEADERS then Some(GetHeaders(Items(fs, 1, n), D(fs[1 + n]), N16(fs[2 + n])))
    else if t == HEADERS then Some(Headers(Items(fs, 1, n)))
    else if t == GET_BLOCKS then Some(GetBlocks(Items(fs, 1, n)))
    else if t == BLOCKS then Some(Blocks(Items(fs, 1, n)))
    else if t == NEW_BLOCK then Some(NewBlock(D(fs[0])))
    else if t == NEW_TRANSACTION then Some(NewTransaction(D(fs[0])))
    else if t == REJECT then Some(Reject(N16(fs[0]), N8(fs[1]) == 1, N8(fs[2]) == 1, D(fs[3])))
    else None
  }

  lemma ItemsBack(xs: seq<Bytes>, head: Field, tail: seq<Field>)
    ensures Items([head] + (DataOf(xs) + tail), 1, |xs|) == xs
  {
    var fs := [head] + (DataOf(xs) + tail);
    forall i | 0 <= i < |xs|
      ensures Items(fs, 1, |xs|)[i] == xs[i]
    {
      assert fs[1 + i] == (DataOf(xs) + tail)[i] == DataOf(xs)[i] == Data(xs[i]);
      assert Items(fs, 1, |xs|)[i] == D(fs[1 + i]);
    }
  }

  lemma EntryBack(ps: seq<Peer>, fs: seq<Field>, i: nat)
    requires i < |ps| && |fs| >= 1 + 4 * |ps| && forall j :: 0 <= j < 4 * |ps| ==> fs[1 + j] == EntriesOf(ps)[j]
    ensures Entries(fs, |ps|)[i] == ps[i]
  {
    assert fs[1 + 4 * i] == EntriesOf(ps)[4 * i] && fs[1 + (4 * i + 1)] == EntriesOf(ps)[4 * i + 1];
    assert fs[1 + (4 * i + 2)] == EntriesOf(ps)[4 * i + 2] && fs[1 + (4 * i + 3)] == EntriesOf(ps)[4 * i + 3];
    assert 4 * i / 4 == i && (4 * i + 1) / 4 == i && (4 * i + 2) / 4 == i && (4 * i + 3) / 4 == i;
  }

  lemma EntriesBack(ps: seq<Peer>, tail: seq<Field>)
    ensures Entries([Num(|ps|)] + (EntriesOf(ps) + tail), |ps|) == ps
  {
    var fs := [Num(|ps|)] + (EntriesOf(ps) + tail);
    forall i | 0 <= i < |ps|
      ensures Entries(fs, |ps|)[i] == ps[i]
    {
      EntryBack(ps, fs, i);
    }
  }

  predicate Builds(m: Message) {
    LayoutMatches(m);
    KindsWidth(TypeOf(m), Count(m));
    Build(TypeOf(m), Count(m), FieldsOf(m)) == Some(m)
  }

  lemma PeersBack(ps: seq<Peer>, next: Text)
    ensures Builds(Peers(ps, next))
  {
    EntriesBack(ps, [Data(next)]);
    LayoutMatches(Peers(ps, next));
    assert ([Num(|ps|)] + (EntriesOf(ps) + [Data(next)]))[1 + 4 * |ps|] == Data(next);
  }

  lemma GetHeadersBack(loc: seq<Bytes>, stop: Bytes, max: u16)
    ensures Builds(GetHeaders(loc, stop, max))
  {
    ItemsBack(loc, Num(|loc|), [Data(stop), Num(max)]);
    LayoutMatches(GetHeaders(loc, stop, max));
    assert ([Num(|loc|)] + (DataOf(loc) + [Data(stop), Num(max)]))[1 + |loc|] == Data(stop);
    assert ([Num(|loc|)] + (DataOf(loc) + [Data(stop), Num(max)]))[2 + |loc|] == Num(max);
  }

  lemma ListBack(m: Message)
    requires m.Headers? || m.GetBlocks? || m.Blocks?
    ensures Builds(m)
  {
    LayoutMatches(m);
    var xs := if m.GetBlocks? then m.hashes else m.items;
    ItemsBack(xs, Num(|xs|), []);
  }

  lemma HelloBack(m: Message)
    requires m.Hello? || m.HelloAck?
    ensures Builds(m)
  {
    LayoutMatches(m);
  }

  lemma PlainBack(m: Message)
    requires !m.Hello? && !m.HelloAck? && CountKind(TypeOf(m)).None?
    ensures Builds(m)
  {
    LayoutMatches(m);
  }

  /** The fields of a message determine it. */
  lemma BuildBack(m: Message)
    ensures Builds(m)
  {
    match m
    case Peers(ps, next) => PeersBack(ps, next);
    case GetHeaders(loc, stop, max) => GetHeadersBack(loc, stop, max);
    case Headers(_) => ListBack(m);
    case GetBlocks(_) => ListBack(m);
    case Blocks(_) => ListBack(m);
    case Hello(_, _, _, _, _, _, _, _, _, _, _) => HelloBack(m);
    case HelloAck(_, _, _, _, _, _, _, _, _, _, _, _) => HelloBack(m);
    case _ => PlainBack(m);
  }

  // ---- encoding and decoding ------------------------------------------------

  /** The counts an encoder refuses outright, and the unsolicited messages that carry no request id. */
  predicate Framable(m: Message, id: u64) {
    && (CountKind(TypeOf(m)).Some? ==> Obeys(Num(Count(m)), CountKind(TypeOf(m)).value.send))
    && (m.NewBlock? || m.NewTransaction? ==> id == 0)
  }

  function Payload(m: Message): Bytes {
    LayoutMatches(m);
    Written(Kinds(TypeOf(m), Count(m)), FieldsOf(m))
  }

  /** The encoders: a refused field cuts the payload short, and the frame is sent all the same. */
  function EncodeMessage(m: Message, id: u64): Option<Bytes> {
    if !Framable(m, id) then None else EncodeFrame(FrameOf(m, id))
  }

  /** The list length a decoder goes by. */
  function CountIn(t: u16, d: Bytes): Option<nat> {
    match CountKind(t)
    case None => Some(0)
    case Some(k) =>
      var (f, _) :- Get(k.shape, d);
      if f.Num? && Obeys(f, k.recv) then Some(f.n) else None
  }

  function DecodePayload(t: u16, d: Bytes): Option<Message> {
    var n :- CountIn(t, d);
    var (fs, rest) :- ReadAll(Kinds(t, n), d);
    if rest != [] then None
    else
      KindsWidth(t, n);
      Build(t, n, fs)
  }

  lemma KindsWidth(t: u16, n: nat)
    ensures |Kinds(t, n)| == Width(t, n)
  {
    if CountKind(t).Some? { RepeatLength(ItemKinds(t), n); }
  }

  /** The decoders. */
  function DecodeMessage(f: Frame): Option<Message> {
    if (f.kind == NEW_BLOCK || f.kind == NEW_TRANSACTION) && f.requestId != 0 then None else DecodePayload(f.kind, f.payload)
  }

  /** No side objects to any field. */
  predicate Proper(m: Message) {
    LayoutMatches(m);
    AllClean(Kinds(TypeOf(m), Count(m)), FieldsOf(m))
  }

  lemma CountBack(m: Message)
    requires CountKind(TypeOf(m)).Some? ==> Obeys(Num(Count(m)), CountKind(TypeOf(m)).value.send)
    ensures CountIn(TypeOf(m), Payload(m)) == Some(Count(m))
  {
    LayoutMatches(m);
    var t := TypeOf(m);
    if CountKind(t).Some? {
      var k := CountKind(t).value;
      var ks, fs := Kinds(t, Count(m)), FieldsOf(m);
      assert ks[0] == k && fs[0] == Num(Count(m));
      GetPut(k.shape, fs[0], Written(ks[1..], fs[1..]));
    }
  }

  lemma {:induction false} RepeatSolid(ks: seq<Kind>, n: nat)
    requires forall k :: k in ks ==> Solid(k.shape)
    ensures forall k :: k in Repeat(ks, n) ==> Solid(k.shape)
  {
    if n > 0 { RepeatSolid(ks, n - 1); }
  }

  lemma KindsSolid(t: u16, n: nat)
    ensures forall k :: k in Kinds(t, n) ==> Solid(k.shape)
  {
    RepeatSolid(ItemKinds(t), n);
  }

  lemma PayloadBack(m: Message)
    requires CountKind(TypeOf(m)).Some? ==> Obeys(Num(Count(m)), CountKind(TypeOf(m)).value.send)
    ensures DecodePayload(TypeOf(m), Payload(m)) == if Proper(m) then Some(m) else None
  {
    LayoutMatches(m);
    CountBack(m);
    var ks, fs := Kinds(TypeOf(m), Count(m)), FieldsOf(m);
    if Proper(m) {
      CleanRead(ks, fs, []);
      assert Written(ks, fs) + [] == Written(ks, fs);
      BuildBack(m);
    } else {
      KindsSolid(TypeOf(m), Count(m));
      UncleanRefused(ks, fs);
    }
  }

  function FrameOf(m: Message, id: u64): Frame { Frame(MAJOR, MINOR, TypeOf(m), id, Payload(m)) }

  lemma FrameBack(m: Message, id: u64)
    requires Framable(m, id)
    ensures DecodeMessage(FrameOf(m, id)) == if Proper(m) then Some(m) else None
  {
    PayloadBack(m);
  }

  /**
   * A proper message comes back from its frame as itself; a message with a field that either side
   * objects to is sent, but never accepted.
   */
  lemma MessageRoundTrip(m: Message, id: u64)
    requires EncodeMessage(m, id).Some?
    ensures DecodeFrame(EncodeMessage(m, id).value).Some?
    ensures DecodeMessage(DecodeFrame(EncodeMessage(m, id).value).value) == if Proper(m) then Some(m) else None
  {
    FrameRoundTrip(FrameOf(m, id));
    FrameBack(m, id);
  }

  /** The encoders at work. */
  method WriteMessage(m: Message, id: u64) returns (bytes: Option<Bytes>)
    ensures bytes == EncodeMessage(m, id)
  {
    if !Framable(m, id) { return None; }
    var w := new Writer();
    LayoutMatches(m);
    w.All(Kinds(TypeOf(m), Count(m)), FieldsOf(m));
    assert [] + Payload(m) == Payload(m);
    bytes := EncodeFrame(Frame(MAJOR, MINOR, TypeOf(m), id, w.data));
  }

  /** The decoders at work. */
  method ReadMessage(f: Frame) returns (m: Option<Message>)
    ensures m == DecodeMessage(f)
  {
    if (f.kind == NEW_BLOCK || f.kind == NEW_TRANSACTION) && f.requestId != 0 { return None; }
    var n := CountIn(f.kind, f.payload);
    if n.None? { return None; }
    var r := new Reader(f.payload);
    var fs := r.All(Kinds(f.kind, n.value));
    if r.failed || r.rest != [] { return None; }
    KindsWidth(f.kind, n.value);
    m := Build(f.kind, n.value, fs);
  }
}
