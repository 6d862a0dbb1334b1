/** The append-only ledger journal (internal/storage/storage.go). */
module Journal {
  import opened Base
  import opened Protocol
  import Utf8

  const MAGIC: Bytes := Ascii("SYJDB001") + [0, 1]  // with the record version
  const MAX_RECORD: nat := 4 * 1024 * 1024
  const HEADER: nat := 19

  const BLOCK: byte := 1
  const TIP: byte := 2
  const CHECKPOINT: byte := 3

  datatype Record = Record(kind: byte, payload: Bytes)

  /** The checksum and the JSON block codec are parameters. */
  datatype Codec = Codec(crc: Bytes -> u32, enc: Block -> Bytes, dec: Bytes -> Option<Block>)

  /** Every text is well-formed UTF-8, so JSON replaces none of its bytes. */
  predicate LegibleTx(tx: Tx) {
    forall t {:trigger Utf8.WellFormed(t)} ::
      t in [tx.networkId, tx.sender, tx.receiver, tx.publicKey, tx.signature, tx.txHash, tx.txId] ==> Utf8.WellFormed(t)
  }

  predicate Legible(b: Block) {
    forall t {:trigger Utf8.WellFormed(t)} :: t in [b.header.previousHash, b.header.merkleRoot, b.hash] ==> Utf8.WellFormed(t)
  }

  /** A transaction as the block codec reads it: parties and identity present, the other version's fields empty. */
  predicate NormalTx(tx: Tx) {
    && LegibleTx(tx)
    && tx.sender != [] && tx.receiver != []
    && if tx.version == 2 then tx.networkId != [] && tx.txId != [] && tx.txHash == []
       else tx.version == 0 && tx.txHash != [] && tx.networkId == [] && tx.nonce == 0 && tx.txId == []
  }

  predicate Normal(b: Block) {
    && Legible(b)
    && forall i :: 0 <= i < |b.txs| ==> NormalTx(b.txs[i])
  }

  /** Every block in that form is read back as it was written. */
  ghost predicate Lawful(codec: Codec) {
    forall b :: Normal(b) ==> codec.dec(codec.enc(b)) == Some(b)
  }

  lemma GenesisIsNormal(c: Crypto)
    ensures Normal(Genesis(c))
  {
    HexIsLegible(ZERO_HASH);
    HexIsLegible(Genesis(c).header.merkleRoot);
    HexIsLegible(Genesis(c).hash);
    SenderIsLegible(GENESIS_SENDER);
    assert Utf8.WellFormed([]);
  }

  lemma HexIsLegible(t: Text)
    requires AllHex(t)
    ensures Utf8.WellFormed(t)
  {
    Utf8.AsciiWellFormed(t);
  }

  /** Wallet addresses and the reserved senders are plain ASCII. */
  lemma SenderIsLegible(t: Text)
    requires ValidAddress(t) || t == COINBASE_SENDER || t == GENESIS_SENDER
    ensures Utf8.WellFormed(t) && t != []
  {
    if ValidAddress(t) {
      Utf8.AsciiWellFormed(t);
    } else {
      ReservedIsLegible(t);
    }
  }

  lemma ReservedIsLegible(t: Text)
    requires t == COINBASE_SENDER || t == GENESIS_SENDER
    ensures Utf8.WellFormed(t)
  {
    assert forall i :: 0 <= i < |t| ==> t[i] < 0x80;
    Utf8.AsciiWellFormed(t);
  }

  /** What a replay rebuilds in memory. */
  datatype Disk = Disk(blocks: map<Text, Bytes>, tip: Text, checkpoints: map<Text, Bytes>)
  const EMPTY: Disk := Disk(map[], [], map[])

  function EncodeHeader(codec: Codec, r: Record): (h: Bytes)
    ensures |h| == HEADER
  {
    (MAGIC + [r.kind]) + (PutU32(|r.payload| % 0x1_0000_0000) + PutU32(codec.crc(r.payload)))
  }

  function EncodeRecord(codec: Codec, r: Record): Bytes { EncodeHeader(codec, r) + r.payload }

  function EncodeAll(codec: Codec, rs: seq<Record>): Bytes {
    if rs == [] then [] else EncodeRecord(codec, rs[0]) + EncodeAll(codec, rs[1..])
  }

  // ---- replay --------------------------------------------------------------

  /** The record switch of `replay`. */
  function Apply(codec: Codec, d: Disk, r: Record): Option<Disk> {
    if r.kind == BLOCK then
      var b :- codec.dec(r.payload);
      if b.hash == [] then None else Some(d.(blocks := d.blocks[b.hash := r.payload]))
    else if r.kind == TIP then Some(d.(tip := r.payload))
    else if r.kind == CHECKPOINT then
      if |r.payload| < 65 then None else Some(d.(checkpoints := d.checkpoints[r.payload[..64] := r.payload[64..]]))
    else None
  }

  function Fold(codec: Codec, d: Disk, rs: seq<Record>): Option<Disk>
    decreases |rs|
  {
    if rs == [] then Some(d)
    else
      var e :- Apply(codec, d, rs[0]);
      Fold(codec, e, rs[1..])
  }

  /** A complete header: `None` is corruption. */
  function ReadHeader(h: Bytes): Option<(byte, nat, nat)>
    requires |h| == HEADER
  {
    if h[..10] != MAGIC then None
    else
      var length := GetU32(h[11..15]);
      if length > MAX_RECORD then None else Some((h[10], length, GetU32(h[15..19])))
  }

  datatype Outcome = Recovered(disk: Disk, length: nat) | Corrupt

  function Longer(o: Outcome, n: nat): Outcome {
    if o.Recovered? then o.(length := o.length + n) else o
  }

  /** `replay`: the rebuilt maps and the length the file is truncated to. */
  function Replay(codec: Codec, d: Disk, file: Bytes): Outcome
    decreases |file|
  {
    if |file| < HEADER then Recovered(d, 0)
    else match ReadHeader(file[..HEADER])
      case None => Corrupt
      case Some((kind, length, crc)) =>
        if |file| < HEADER + length then Recovered(d, 0)
        else
          var payload := file[HEADER..HEADER + length];
          if codec.crc(payload) != crc then Corrupt
          else match Apply(codec, d, Record(kind, payload))
            case None => Corrupt
            case Some(e) => Longer(Replay(codec, e, file[HEADER + length..]), HEADER + length)
  }

  /** The tips a log records, in order. */
  function TipsIn(rs: seq<Record>): seq<Text> {
    if rs == [] then [] else TipsIn(rs[..|rs| - 1]) + (if rs[|rs| - 1].kind == TIP then [rs[|rs| - 1].payload] else [])
  }

  datatype Step = Stop | Bad | Loaded(size: nat)

  // ---- the store -----------------------------------------------------------

  class Store {
    const codec: Codec
    var file: Bytes
    var blocks: map<Text, Bytes>
    var tip: Text
    var checkpoints: map<Text, Bytes>
    ghost var log: seq<Record>
    ghost var tips: seq<Text>

    ghost function Image(): Disk
      reads this
    { Disk(blocks, tip, checkpoints) }

    /** The file is the encoding of the log, and memory is what the log replays to. */
    ghost predicate Valid()
      reads this
    {
      && file == EncodeAll(codec, log)
      && AllWellFormed(codec, log)
      && Fold(codec, EMPTY, log) == Some(Image())
      && tips == TipsIn(log)
    }

    constructor (codec: Codec, file: Bytes)
      ensures this.codec == codec && this.file == file && Image() == EMPTY && log == []
    {
      this.codec, this.file := codec, file;
      blocks, tip, checkpoints := map[], [], map[];
      log, tips := [], [];
    }

    /** `replay`, reading record by record; an incomplete tail is truncated. */
    method Recover() returns (ok: bool)
      requires Image() == EMPTY
      modifies this
      ensures ok == Replay(codec, EMPTY, old(file)).Recovered?
      ensures log == old(log)
      ensures ok ==> Recovered(Image(), |file|) == Replay(codec, EMPTY, old(file)) && |file| <= |old(file)| && file == old(file)[..|file|]
    {
      var offset := 0;
      var step := Loaded(0);
      ghost var whole := Replay(codec, EMPTY, file);
      ghost var ahead := whole;
      assert file[0..] == file;
      while step.Loaded?
        invariant 0 <= offset <= |file| && file == old(file) && log == old(log)
        invariant whole == Longer(ahead, offset)
        invariant step.Loaded? ==> ahead == Replay(codec, Image(), file[offset..])
        invariant step.Stop? ==> ahead == Recovered(Image(), 0)
        invariant step.Bad? ==> ahead == Corrupt
        decreases |file| - offset, if step.Loaded? then 1 else 0
      {
        step := Next(file[offset..]);
        if step.Loaded? {
          ahead := Replay(codec, Image(), file[offset..][step.size..]);
          assert file[offset..][step.size..] == file[offset + step.size..];
          offset := offset + step.size;
        }
      }
      ok := step.Stop?;
      if ok { file := file[..offset]; }
    }

    /** One iteration: header, payload, checksum, record. */
    method Next(rest: Bytes) returns (step: Step)
      modifies this`blocks, this`tip, this`checkpoints
      ensures step.Stop? ==> Image() == old(Image()) && Replay(codec, Image(), rest) == Recovered(Image(), 0)
      ensures step.Bad? ==> Replay(codec, old(Image()), rest) == Corrupt
      ensures step.Loaded? ==> HEADER <= step.size <= |rest|
      ensures step.Loaded? ==> Replay(codec, old(Image()), rest) == Longer(Replay(codec, Image(), rest[step.size..]), step.size)
    {
      if |rest| < HEADER { return Stop; }
      var header := ReadHeader(rest[..HEADER]);
      if header.None? { return Bad; }
      var (kind, length, crc) := header.value;
      if |rest| < HEADER + length { return Stop; }
      var payload := rest[HEADER..HEADER + length];
      if codec.crc(payload) != crc { return Bad; }
      var ok := Load(Record(kind, payload));
      step := if ok then Loaded(HEADER + length) else Bad;
    }

    method Load(r: Record) returns (ok: bool)
      modifies this`blocks, this`tip, this`checkpoints
      ensures ok == Apply(codec, old(Image()), r).Some?
      ensures ok ==> Image() == Apply(codec, old(Image()), r).value
    {
      if r.kind == BLOCK {
        var b := codec.dec(r.payload);
        if b.None? || b.value.hash == [] { return false; }
        blocks := blocks[b.value.hash := r.payload];
      } else if r.kind == TIP {
        tip := r.payload;
      } else if r.kind == CHECKPOINT {
        if |r.payload| < 65 { return false; }
        checkpoints := checkpoints[r.payload[..64] := r.payload[64..]];
      } else {
        return false;
      }
      ok := true;
    }

    /** `appendRecord`. */
    method Append(r: Record) returns (ok: bool)
      requires file == EncodeAll(codec, log)
      modifies this`file, this`log
      ensures ok == (|r.payload| <= MAX_RECORD)
      ensures log == if ok then old(log) + [r] else old(log)
      ensures file == EncodeAll(codec, log)
    {
      if |r.payload| > MAX_RECORD { return false; }
      EncodeSnoc(codec, log, r);
      file := file + EncodeHeader(codec, r);
      file := file + r.payload;
      log := log + [r];
      ok := true;
    }

    method SaveBlock(b: Block) returns (ok: bool)
      requires Valid() && codec.dec(codec.enc(b)) == Some(b) && b.hash != []
      modifies this`file, this`log, this`blocks
      ensures Valid()
      ensures ok == (|codec.enc(b)| <= MAX_RECORD)
      ensures ok ==> log == old(log) + [BlockRecord(codec, b)]
      ensures ok ==> Image() == old(Image()).(blocks := old(blocks)[b.hash := codec.enc(b)])
      ensures !ok ==> log == old(log) && Image() == old(Image())
    {
      ok := Append(BlockRecord(codec, b));
      if !ok { return; }
      FoldSnoc(codec, EMPTY, old(log), BlockRecord(codec, b));
      TipsSnoc(old(log), BlockRecord(codec, b));
      blocks := blocks[b.hash := codec.enc(b)];
    }

    method SetTip(hash: Text) returns (ok: bool)
      requires Valid()
      modifies this`file, this`log, this`tip, this`tips
      ensures Valid()
      ensures ok == ((hash == [] || hash in old(blocks)) && |hash| <= MAX_RECORD)
      ensures tips == if ok then old(tips) + [hash] else old(tips)
      ensures ok ==> log == old(log) + [TipRecord(hash)] && Image() == old(Image()).(tip := hash)
      ensures !ok ==> log == old(log) && Image() == old(Image())
    {
      if hash != [] && hash !in blocks { return false; }
      ok := Append(TipRecord(hash));
      if !ok { return; }
      FoldSnoc(codec, EMPTY, old(log), TipRecord(hash));
      TipsSnoc(old(log), TipRecord(hash));
      tip := hash;
      tips := tips + [hash];
    }

    method SaveStateCheckpoint(hash: Text, payload: Bytes) returns (ok: bool)
      requires Valid() && payload != []
      modifies this`file, this`log, this`checkpoints
      ensures Valid()
      ensures ok == (|hash| == 64 && |payload| <= MAX_RECORD - 64)
      ensures ok ==> log == old(log) + [CheckpointRecord(hash, payload)]
      ensures ok ==> Image() == old(Image()).(checkpoints := old(checkpoints)[hash := payload])
      ensures !ok ==> log == old(log) && Image() == old(Image())
    {
      if |hash| != 64 { return false; }
      if |payload| > MAX_RECORD - 64 { return false; }
      ok := Append(CheckpointRecord(hash, payload));
      FoldSnoc(codec, EMPTY, old(log), CheckpointRecord(hash, payload));
      TipsSnoc(old(log), CheckpointRecord(hash, payload));
      assert (hash + payload)[..64] == hash && (hash + payload)[64..] == payload;
      checkpoints := checkpoints[hash := payload];
    }
  }

  function BlockRecord(codec: Codec, b: Block): Record { Record(BLOCK, codec.enc(b)) }
  function TipRecord(hash: Text): Record { Record(TIP, hash) }
  function CheckpointRecord(hash: Text, payload: Bytes): Record { Record(CHECKPOINT, hash + payload) }

  // ---- logs ----------------------------------------------------------------

  /** A record that `replay` can read whatever precedes it. */
  predicate WellFormed(codec: Codec, r: Record) {
    |r.payload| <= MAX_RECORD && Apply(codec, EMPTY, r).Some?
  }

  predicate AllWellFormed(codec: Codec, rs: seq<Record>) {
    forall i :: 0 <= i < |rs| ==> WellFormed(codec, rs[i])
  }

  lemma ApplyTotal(codec: Codec, d: Disk, r: Record)
    ensures Apply(codec, d, r).Some? <==> Apply(codec, EMPTY, r).Some?
  {
  }

  lemma {:induction false} EncodeSnoc(codec: Codec, rs: seq<Record>, r: Record)
    ensures EncodeAll(codec, rs + [r]) == EncodeAll(codec, rs) + EncodeRecord(codec, r)
  {
    if rs == [] {
      assert [r][1..] == [];
    } else {
      assert (rs + [r])[1..] == rs[1..] + [r];
      EncodeSnoc(codec, rs[1..], r);
    }
  }

  lemma {:induction false} FoldSnoc(codec: Codec, d: Disk, rs: seq<Record>, r: Record)
    ensures Fold(codec, d, rs).Some? ==> Fold(codec, d, rs + [r]) == Apply(codec, Fold(codec, d, rs).value, r)
    decreases |rs|
  {
    if rs == [] {
      assert [r][1..] == [];
    } else {
      assert (rs + [r])[1..] == rs[1..] + [r];
      if Apply(codec, d, rs[0]).Some? { FoldSnoc(codec, Apply(codec, d, rs[0]).value, rs[1..], r); }
    }
  }

  lemma TipsSnoc(rs: seq<Record>, r: Record)
    ensures TipsIn(rs + [r]) == TipsIn(rs) + (if r.kind == TIP then [r.payload] else [])
  {
    assert (rs + [r])[..|rs + [r]| - 1] == rs;
  }

  lemma {:induction false} FoldTotal(codec: Codec, d: Disk, rs: seq<Record>)
    requires AllWellFormed(codec, rs)
    ensures Fold(codec, d, rs).Some?
    decreases |rs|
  {
    if rs != [] {
      assert WellFormed(codec, rs[0]);
      ApplyTotal(codec, d, rs[0]);
      FoldTotal(codec, Apply(codec, d, rs[0]).value, rs[1..]);
    }
  }

  // ---- crashes -------------------------------------------------------------

  /** How many leading records lie completely within the first `cut` bytes. */
  function WholeRecords(rs: seq<Record>, cut: nat): nat {
    if rs == [] || cut < HEADER + |rs[0].payload| then 0
    else 1 + WholeRecords(rs[1..], cut - (HEADER + |rs[0].payload|))
  }

  lemma ReadHeaderWritten(codec: Codec, r: Record)
    requires |r.payload| <= MAX_RECORD
    ensures ReadHeader(EncodeHeader(codec, r)) == Some((r.kind, |r.payload|, codec.crc(r.payload) as nat))
  {
    var h := EncodeHeader(codec, r);
    var n, c := PutU32(|r.payload|), PutU32(codec.crc(r.payload));
    assert h[..10] == MAGIC && h[10] == r.kind && h[11..15] == n && h[15..19] == c;
    GetPut(|r.payload|);
    GetPut(codec.crc(r.payload));
  }

  lemma GetPut(x: u32)
    ensures GetU32(PutU32(x)) == x
  {
  }

  /** One complete record at the front of a file is loaded. */
  lemma ReplayStep(codec: Codec, d: Disk, r: Record, rest: Bytes)
    requires |r.payload| <= MAX_RECORD
    ensures Replay(codec, d, EncodeRecord(codec, r) + rest) ==
            match Apply(codec, d, r)
            case None => Corrupt
            case Some(e) => Longer(Replay(codec, e, rest), HEADER + |r.payload|)
  {
    var file := EncodeRecord(codec, r) + rest;
    ReadHeaderWritten(codec, r);
    assert file[..HEADER] == EncodeHeader(codec, r);
    assert file[HEADER..HEADER + |r.payload|] == r.payload;
    assert file[HEADER + |r.payload|..] == rest;
  }

  /** An incomplete record is a tail to discard. */
  lemma ReplayPartial(codec: Codec, d: Disk, r: Record, n: nat)
    requires |r.payload| <= MAX_RECORD && n < HEADER + |r.payload|
    ensures Replay(codec, d, EncodeRecord(codec, r)[..n]) == Recovered(d, 0)
  {
    if n >= HEADER {
      ReadHeaderWritten(codec, r);
      assert EncodeRecord(codec, r)[..n][..HEADER] == EncodeHeader(codec, r);
    }
  }

  /**
   * Cut the file of any well-formed log at any byte: replay succeeds, keeps exactly the whole
   * records and truncates to them.
   */
  lemma {:induction false} ReplayAfterCut(codec: Codec, d: Disk, rs: seq<Record>, cut: nat)
    requires AllWellFormed(codec, rs) && cut <= |EncodeAll(codec, rs)|
    ensures WholeRecords(rs, cut) <= |rs|
    ensures Fold(codec, d, rs[..WholeRecords(rs, cut)]).Some?
    ensures Replay(codec, d, EncodeAll(codec, rs)[..cut]) ==
            Recovered(Fold(codec, d, rs[..WholeRecords(rs, cut)]).value, |EncodeAll(codec, rs[..WholeRecords(rs, cut)])|)
    decreases |rs|
  {
    if rs != [] {
      var size := HEADER + |rs[0].payload|;
      WellFormedHead(codec, rs);
      if cut < size {
        CutFirst(codec, d, rs, cut);
      } else {
        ApplyTotal(codec, d, rs[0]);
        var e := Apply(codec, d, rs[0]).value;
        ReplayAfterCut(codec, e, rs[1..], cut - size);
        CutLater(codec, d, e, rs, cut);
        WholeHead(codec, d, rs, cut);
      }
    }
  }

  lemma CutLater(codec: Codec, d: Disk, e: Disk, rs: seq<Record>, cut: nat)
    requires rs != [] && |rs[0].payload| <= MAX_RECORD && HEADER + |rs[0].payload| <= cut <= |EncodeAll(codec, rs)|
    requires Apply(codec, d, rs[0]) == Some(e)
    ensures Replay(codec, d, EncodeAll(codec, rs)[..cut]) ==
            Longer(Replay(codec, e, EncodeAll(codec, rs[1..])[..cut - (HEADER + |rs[0].payload|)]), HEADER + |rs[0].payload|)
  {
    var first, tail := EncodeRecord(codec, rs[0]), EncodeAll(codec, rs[1..]);
    CutSplit(first, tail, cut);
    ReplayStep(codec, d, rs[0], tail[..cut - |first|]);
  }

  lemma CutFirst(codec: Codec, d: Disk, rs: seq<Record>, cut: nat)
    requires rs != [] && |rs[0].payload| <= MAX_RECORD && cut < HEADER + |rs[0].payload|
    ensures WholeRecords(rs, cut) == 0 && rs[..0] == []
    ensures cut <= |EncodeAll(codec, rs)| && Replay(codec, d, EncodeAll(codec, rs)[..cut]) == Recovered(d, 0)
  {
    ReplayPartial(codec, d, rs[0], cut);
    assert EncodeAll(codec, rs)[..cut] == EncodeRecord(codec, rs[0])[..cut];
  }

  /** The kept records are the leading bytes of the cut file. */
  lemma {:induction false} WholeRecordsFit(codec: Codec, rs: seq<Record>, cut: nat)
    requires cut <= |EncodeAll(codec, rs)|
    ensures WholeRecords(rs, cut) <= |rs|
    ensures var kept := EncodeAll(codec, rs[..WholeRecords(rs, cut)]);
            |kept| <= cut && EncodeAll(codec, rs)[..|kept|] == kept
    decreases |rs|
  {
    if rs != [] && cut >= HEADER + |rs[0].payload| {
      var size := HEADER + |rs[0].payload|;
      WholeRecordsFit(codec, rs[1..], cut - size);
      WholeHead(codec, EMPTY, rs, cut);
      CutSplit(EncodeRecord(codec, rs[0]), EncodeAll(codec, rs[1..]), |EncodeAll(codec, rs[..WholeRecords(rs, cut)])|);
    } else {
      assert rs[..0] == [];
    }
  }

  /** `Open` on what a crash left of a written file: the whole records are back in memory and on disk. */
  method Open(codec: Codec, file: Bytes, ghost written: seq<Record>) returns (ok: bool, store: Store)
    requires AllWellFormed(codec, written) && |file| <= |EncodeAll(codec, written)|
    requires file == EncodeAll(codec, written)[..|file|]
    ensures fresh(store) && store.codec == codec
    ensures ok && store.Valid()
    ensures WholeRecords(written, |file|) <= |written| && store.log == written[..WholeRecords(written, |file|)]
  {
    store := new Store(codec, file);
    ReplayAfterCut(codec, EMPTY, written, |file|);
    WholeRecordsFit(codec, written, |file|);
    ok := store.Recover();
    ghost var kept := written[..WholeRecords(written, |file|)];
    store.log, store.tips := kept, TipsIn(kept);
    assert forall i :: 0 <= i < |kept| ==> kept[i] == written[i];
  }

  /** Cutting nothing keeps every record. */
  lemma {:induction false} WholeRecordsAll(codec: Codec, rs: seq<Record>)
    ensures WholeRecords(rs, |EncodeAll(codec, rs)|) == |rs|
    decreases |rs|
  {
    if rs != [] { WholeRecordsAll(codec, rs[1..]); }
  }

  lemma CutSplit(a: Bytes, b: Bytes, cut: nat)
    requires |a| <= cut <= |a| + |b|
    ensures (a + b)[..cut] == a + b[..cut - |a|]
  {
  }

  lemma WholeHead(codec: Codec, d: Disk, rs: seq<Record>, cut: nat)
    requires rs != [] && cut >= HEADER + |rs[0].payload|
    requires WholeRecords(rs[1..], cut - (HEADER + |rs[0].payload|)) < |rs|
    ensures var k := WholeRecords(rs[1..], cut - (HEADER + |rs[0].payload|));
            && WholeRecords(rs, cut) == 1 + k
            && EncodeAll(codec, rs[..1 + k]) == EncodeRecord(codec, rs[0]) + EncodeAll(codec, rs[1..][..k])
            && Fold(codec, d, rs[..1 + k]) == match Apply(codec, d, rs[0])
                 case None => None case Some(e) => Fold(codec, e, rs[1..][..k])
  {
    var k := WholeRecords(rs[1..], cut - (HEADER + |rs[0].payload|));
    assert rs[..1 + k][0] == rs[0] && rs[..1 + k][1..] == rs[1..][..k];
  }

  /** A complete file is readable exactly when each of its records is. */
  lemma {:induction false} ReadableIffWellFormed(codec: Codec, d: Disk, rs: seq<Record>)
    requires forall i :: 0 <= i < |rs| ==> |rs[i].payload| <= MAX_RECORD
    ensures Replay(codec, d, EncodeAll(codec, rs)).Recovered? <==> AllWellFormed(codec, rs)
    decreases |rs|
  {
    if rs != [] {
      ReplayStep(codec, d, rs[0], EncodeAll(codec, rs[1..]));
      ApplyTotal(codec, d, rs[0]);
      WellFormedHead(codec, rs);
      if Apply(codec, d, rs[0]).Some? { ReadableIffWellFormed(codec, Apply(codec, d, rs[0]).value, rs[1..]); }
    }
  }

  lemma WellFormedHead(codec: Codec, rs: seq<Record>)
    requires rs != []
    ensures AllWellFormed(codec, rs) <==> WellFormed(codec, rs[0]) && AllWellFormed(codec, rs[1..])
  {
    assert forall i :: 0 < i < |rs| ==> rs[i] == rs[1..][i - 1];
  }
}
