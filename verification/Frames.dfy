/** Peer-to-peer frames. (internal/p2p/wire.go) */
module Frames {
  import opened Base

  const MAGIC: Bytes := Ascii("SYJP")
  const HEADER_SIZE: nat := 20
  const MAJOR: byte := 1
  const MINOR: byte := 1
  const MAX_PAYLOAD: nat := 4 * 1024 * 1024 - 20

  const HELLO: u16 := 1
  const HELLO_ACK: u16 := 2
  const GET_PEERS: u16 := 3
  const PEERS: u16 := 4
  const GET_HEADERS: u16 := 5
  const HEADERS: u16 := 6
  const GET_BLOCKS: u16 := 7
  const BLOCKS: u16 := 8
  const NEW_BLOCK: u16 := 9
  const NEW_TRANSACTION: u16 := 10
  const REJECT: u16 := 11
  const HELLO_FINISH: u16 := 12

  datatype Frame = Frame(major: byte, minor: byte, kind: u16, requestId: u64, payload: Bytes)

  predicate IsRequest(kind: u16) { kind == HELLO || kind == HELLO_FINISH || kind == GET_PEERS || kind == GET_HEADERS || kind == GET_BLOCKS }
  predicate IsResponse(kind: u16) { kind == HELLO_ACK || kind == PEERS || kind == HEADERS || kind == BLOCKS || kind == REJECT }

  /** A message type with a request id it may carry. */
  predicate IdOk(kind: u16, id: u64) {
    HELLO <= kind <= HELLO_FINISH && (IsRequest(kind) || (IsResponse(kind) && kind != REJECT) ==> id != 0)
  }

  function Header(f: Frame): (h: Bytes)
    ensures |h| == HEADER_SIZE
  {
    (MAGIC + [f.major, f.minor]) + (PutU16(f.kind) + (PutU64(f.requestId) + PutU32(|f.payload| % 0x1_0000_0000)))
  }

  predicate Sendable(f: Frame) {
    f.major == MAJOR && f.minor == MINOR && IdOk(f.kind, f.requestId) && |f.payload| <= MAX_PAYLOAD
  }

  /** `EncodeFrame`. */
  function EncodeFrame(f: Frame): Option<Bytes> {
    if Sendable(f) then Some(Header(f) + f.payload) else None
  }

  /** The checks both readers make on a header: type, request id and payload length. */
  function ReadHeader(h: Bytes): Option<(u16, u64, nat)>
    requires |h| == HEADER_SIZE
  {
    if h[..4] != MAGIC || h[4] != MAJOR || h[5] != MINOR then None
    else
      var kind, id, n := GetU16(h[6..8]), GetU64(h[8..16]), GetU32(h[16..20]);
      if n > MAX_PAYLOAD || !IdOk(kind, id) then None else Some((kind, id, n))
  }

  /** `DecodeFrame`: exactly one frame. */
  function DecodeFrame(d: Bytes): Option<Frame> {
    if |d| < HEADER_SIZE then None
    else
      var (kind, id, n) :- ReadHeader(d[..HEADER_SIZE]);
      if |d| - HEADER_SIZE != n then None else Some(Frame(MAJOR, MINOR, kind, id, d[HEADER_SIZE..]))
  }

  /** `ReadFrame`: one frame off the front of a stream. */
  function ReadFrame(d: Bytes): Option<(Frame, Bytes)> {
    if |d| < HEADER_SIZE then None
    else
      var (kind, id, n) :- ReadHeader(d[..HEADER_SIZE]);
      if |d| - HEADER_SIZE < n then None
      else Some((Frame(MAJOR, MINOR, kind, id, d[HEADER_SIZE..HEADER_SIZE + n]), d[HEADER_SIZE + n..]))
  }

  /** Frames one after the other until the stream ends. */
  function ReadFrames(d: Bytes): Option<seq<Frame>>
    decreases |d|
  {
    if d == [] then Some([])
    else
      var (f, rest) :- ReadFrame(d);
      var fs :- ReadFrames(rest);
      Some([f] + fs)
  }

  function Stream(fs: seq<Frame>): Bytes
    decreases |fs|
  {
    if fs == [] then [] else (Header(fs[0]) + fs[0].payload) + Stream(fs[1..])
  }

  // ---- headers -------------------------------------------------------------

  lemma GetPuts(a: u16, b: u64, c: u32)
    ensures GetU16(PutU16(a)) == a && GetU64(PutU64(b)) == b && GetU32(PutU32(c)) == c
  {
  }

  lemma HeaderFields(f: Frame)
    ensures var h := Header(f);
            && h[..4] == MAGIC && h[4] == f.major && h[5] == f.minor
            && h[6..8] == PutU16(f.kind) && h[8..16] == PutU64(f.requestId) && h[16..20] == PutU32(|f.payload| % 0x1_0000_0000)
  {
    var start, kind, id, n := MAGIC + [f.major, f.minor], PutU16(f.kind), PutU64(f.requestId), PutU32(|f.payload| % 0x1_0000_0000);
    Slices(start, kind, id, n);
    assert Header(f) == start + (kind + (id + n));
  }

  lemma Slices(start: Bytes, kind: Bytes, id: Bytes, n: Bytes)
    requires |start| == 6 && |kind| == 2 && |id| == 8 && |n| == 4
    ensures var h := start + (kind + (id + n));
            h[..6] == start && h[..4] == start[..4] && h[4] == start[4] && h[5] == start[5]
            && h[6..8] == kind && h[8..16] == id && h[16..20] == n
  {
  }

  lemma HeaderRead(f: Frame)
    requires Sendable(f)
    ensures ReadHeader(Header(f)) == Some((f.kind, f.requestId, |f.payload|))
  {
    HeaderFields(f);
    GetPuts(f.kind, f.requestId, |f.payload|);
  }

  lemma Cut(a: Bytes, b: Bytes, c: Bytes)
    ensures ((a + b) + c)[..|a|] == a && ((a + b) + c)[|a|..|a| + |b|] == b && ((a + b) + c)[|a| + |b|..] == c
    ensures (a + b)[..|a|] == a && (a + b)[|a|..] == b
  {
  }

  // ---- round trips ---------------------------------------------------------

  /** Decoding undoes encoding. */
  lemma FrameRoundTrip(f: Frame)
    requires EncodeFrame(f).Some?
    ensures DecodeFrame(EncodeFrame(f).value) == Some(f)
  {
    HeaderRead(f);
    Cut(Header(f), f.payload, []);
  }

  lemma HeaderRebuilt(d: Bytes, kind: u16, id: u64, n: nat, payload: Bytes)
    requires |d| == HEADER_SIZE && ReadHeader(d) == Some((kind, id, n)) && |payload| == n
    ensures Header(Frame(MAJOR, MINOR, kind, id, payload)) == d
  {
    var f := Frame(MAJOR, MINOR, kind, id, payload);
    HeaderFields(f);
    var h := Header(f);
    assert h[6..8] == d[6..8] && h[8..16] == d[8..16] && h[16..20] == d[16..20];
    Whole(h);
    Whole(d);
  }

  lemma Whole(h: Bytes)
    requires |h| == 20
    ensures h == h[..4] + [h[4], h[5]] + h[6..8] + h[8..16] + h[16..20]
  {
  }

  /** Accepted bytes are the encoding of what they decode to. */
  lemma AcceptedReencodes(d: Bytes)
    requires DecodeFrame(d).Some?
    ensures EncodeFrame(DecodeFrame(d).value) == Some(d)
  {
    var (kind, id, n) := ReadHeader(d[..HEADER_SIZE]).value;
    HeaderRebuilt(d[..HEADER_SIZE], kind, id, n, d[HEADER_SIZE..]);
    assert d[..HEADER_SIZE] + d[HEADER_SIZE..] == d;
  }

  lemma FrameRead(f: Frame, rest: Bytes)
    requires Sendable(f)
    ensures ReadFrame((Header(f) + f.payload) + rest) == Some((f, rest))
  {
    HeaderRead(f);
    Cut(Header(f), f.payload, rest);
  }

  /** A stream of concatenated frames is read back as exactly those frames. */
  lemma {:induction false} StreamRead(fs: seq<Frame>)
    requires forall i :: 0 <= i < |fs| ==> Sendable(fs[i])
    ensures ReadFrames(Stream(fs)) == Some(fs)
    decreases |fs|
  {
    if fs != [] {
      StreamRead(fs[1..]);
      FrameRead(fs[0], Stream(fs[1..]));
      assert fs == [fs[0]] + fs[1..];
    }
  }

  /** A strict prefix of a frame is never taken for a frame. */
  lemma PartialFrame(f: Frame, n: nat)
    requires Sendable(f) && n < HEADER_SIZE + |f.payload|
    ensures ReadFrame((Header(f) + f.payload)[..n]).None? && DecodeFrame((Header(f) + f.payload)[..n]).None?
  {
    if n >= HEADER_SIZE {
      HeaderRead(f);
      assert (Header(f) + f.payload)[..n][..HEADER_SIZE] == Header(f);
    }
  }
}
