/**
 * Runs of the journal: any sequence of its operations cut at any byte, and what a failed write
 * does to the records after it. (internal/storage/storage.go)
 */
module JournalRuns {
  import opened Base
  import opened Protocol
  import opened Journal

  // ---- operations ----------------------------------------------------------

  datatype Op = PutBlock(b: Block) | PutTip(hash: Text) | PutCheckpoint(hash: Text, payload: Bytes)

  /** What the callers of the store guarantee. */
  predicate Sound(codec: Codec, op: Op) {
    match op
    case PutBlock(b) => codec.dec(codec.enc(b)) == Some(b) && b.hash != []
    case PutTip(_) => true
    case PutCheckpoint(_, payload) => payload != []
  }

  predicate AllSound(codec: Codec, ops: seq<Op>) {
    forall i :: 0 <= i < |ops| ==> Sound(codec, ops[i])
  }

  /** The record an operation appends to a journal with the given image, unless it is refused. */
  function Appends(codec: Codec, d: Disk, op: Op): seq<Record> {
    match op
    case PutBlock(b) => if |codec.enc(b)| <= MAX_RECORD then [BlockRecord(codec, b)] else []
    case PutTip(h) => if (h == [] || h in d.blocks) && |h| <= MAX_RECORD then [TipRecord(h)] else []
    case PutCheckpoint(h, payload) => if |h| == 64 && |payload| <= MAX_RECORD - 64 then [CheckpointRecord(h, payload)] else []
  }

  /** The log of a sequence of operations on an empty journal. */
  function LogOf(codec: Codec, ops: seq<Op>): seq<Record>
    decreases |ops|
  {
    if ops == [] then []
    else
      var log := LogOf(codec, ops[..|ops| - 1]);
      var d := Fold(codec, EMPTY, log);
      if d.None? then log else log + Appends(codec, d.value, ops[|ops| - 1])
  }

  predicate TipStored(d: Disk) { d.tip == [] || d.tip in d.blocks }

  /** The log is readable and its tip is empty or a stored block. */
  lemma {:induction false} LogReadable(codec: Codec, ops: seq<Op>)
    requires AllSound(codec, ops)
    ensures AllWellFormed(codec, LogOf(codec, ops))
    ensures var d := Fold(codec, EMPTY, LogOf(codec, ops)); d.Some? && TipStored(d.value)
    decreases |ops|
  {
    if ops != [] {
      var init, op := ops[..|ops| - 1], ops[|ops| - 1];
      LogReadable(codec, init);
      assert Sound(codec, op);
      var log := LogOf(codec, init);
      var d := Fold(codec, EMPTY, log).value;
      var more := Appends(codec, d, op);
      if more != [] {
        assert more == [more[0]];
        AppendedReadable(codec, d, op);
        FoldSnoc(codec, EMPTY, log, more[0]);
      } else {
        assert log + more == log;
      }
    }
  }

  lemma AppendedReadable(codec: Codec, d: Disk, op: Op)
    requires Sound(codec, op) && Appends(codec, d, op) != [] && TipStored(d)
    ensures WellFormed(codec, Appends(codec, d, op)[0])
    ensures Apply(codec, d, Appends(codec, d, op)[0]).Some? && TipStored(Apply(codec, d, Appends(codec, d, op)[0]).value)
  {
  }

  /** Every record boundary of a log is the end of a shorter run of operations. */
  lemma {:induction false} BoundaryIsRun(codec: Codec, ops: seq<Op>, k: nat) returns (j: nat)
    requires k <= |LogOf(codec, ops)|
    ensures j <= |ops| && LogOf(codec, ops[..j]) == LogOf(codec, ops)[..k]
    decreases |ops|
  {
    var log := LogOf(codec, ops);
    if k == |log| {
      WholeSlice(ops);
      WholeSlice(log);
      j := |ops|;
    } else {
      var init := ops[..|ops| - 1];
      j := BoundaryIsRun(codec, init, k);
      assert ops[..j] == init[..j] && log[..k] == LogOf(codec, init)[..k];
    }
  }

  /**
   * Any operations, cut at any byte: replay succeeds, truncates to whole records, and what it
   * recovers is the journal of the first `j` operations, to which operations can be appended again.
   */
  lemma {:induction false} RunSurvivesCut(codec: Codec, ops: seq<Op>, cut: nat) returns (j: nat)
    requires AllSound(codec, ops) && cut <= |EncodeAll(codec, LogOf(codec, ops))|
    ensures j <= |ops|
    ensures var d := Fold(codec, EMPTY, LogOf(codec, ops[..j]));
            && d.Some? && TipStored(d.value)
            && Replay(codec, EMPTY, EncodeAll(codec, LogOf(codec, ops))[..cut]) ==
               Recovered(d.value, |EncodeAll(codec, LogOf(codec, ops[..j]))|)
  {
    var log := LogOf(codec, ops);
    LogReadable(codec, ops);
    ReplayAfterCut(codec, EMPTY, log, cut);
    j := BoundaryIsRun(codec, ops, WholeRecords(log, cut));
    LogReadable(codec, ops[..j]);
  }

  /** The store's methods perform the operations. */
  method Perform(store: Store, op: Op, ghost done: seq<Op>) returns (ok: bool)
    requires store.Valid() && store.log == LogOf(store.codec, done) && Sound(store.codec, op)
    modifies store
    ensures store.Valid() && store.log == LogOf(store.codec, done + [op])
    ensures ok == (Appends(store.codec, old(store.Image()), op) != [])
  {
    LastOf(done, op);
    match op
    case PutBlock(b) => ok := store.SaveBlock(b);
    case PutTip(h) => ok := store.SetTip(h);
    case PutCheckpoint(h, payload) => ok := store.SaveStateCheckpoint(h, payload);
  }

  // ---- failed writes -------------------------------------------------------

  lemma {:induction false} ReplayPast(codec: Codec, d: Disk, rs: seq<Record>, tail: Bytes)
    requires AllWellFormed(codec, rs)
    ensures Fold(codec, d, rs).Some?
    ensures Replay(codec, d, EncodeAll(codec, rs) + tail) ==
            Longer(Replay(codec, Fold(codec, d, rs).value, tail), |EncodeAll(codec, rs)|)
    decreases |rs|
  {
    if rs == [] {
      assert [] + tail == tail;
    } else {
      WellFormedHead(codec, rs);
      ApplyTotal(codec, d, rs[0]);
      ReplayPast(codec, Apply(codec, d, rs[0]).value, rs[1..], tail);
      Associative(EncodeRecord(codec, rs[0]), EncodeAll(codec, rs[1..]), tail);
      ReplayStep(codec, d, rs[0], EncodeAll(codec, rs[1..]) + tail);
    }
  }

  lemma U32Of(b: Bytes, w: int, x: int, y: int, z: int)
    requires |b| == 4 && b[0] == w && b[1] == x && b[2] == y && b[3] == z
    ensures GetU32(b) == ((w * 256 + x) * 256 + y) * 256 + z
  {
    var c := b[..3];
    var e := c[..2];
    assert e[..1][..0] == [] && FromBigEndian(e[..1]) == w;
    assert FromBigEndian(e) == w * 256 + x;
    assert FromBigEndian(c) == FromBigEndian(e) * 256 + y;
  }

  /** The magic number occurs in itself nowhere but at its start. */
  lemma MagicUnique(k: nat)
    requires 0 < k < 10
    ensures MAGIC[0] == 83 && MAGIC[k] != 83
  {
    var m := Ascii("SYJDB001");
    assert m[0] == 83 && m[1] == 89 && m[2] == 74 && m[3] == 68;
    assert m[4] == 66 && m[5] == 48 && m[6] == 48 && m[7] == 49;
  }

  /** A header torn before its length field is complete and continued by the next record is no header. */
  lemma TornHeader(h: Bytes, n: nat)
    requires |h| == HEADER && 0 < n <= 12
    requires forall i :: n <= i < HEADER && i - n < 10 ==> h[i] == MAGIC[i - n]
    requires n >= 12 ==> h[11] == 0
    ensures ReadHeader(h).None?
  {
    if n < 10 {
      MagicUnique(n);
      assert h[n] == MAGIC[0];
      assert h[..10][n] == h[n];
    } else {
      var m := Ascii("SYJDB001");
      assert m[0] == 83 && m[1] == 89 && m[2] == 74 && m[3] == 68 && m[4] == 66;
      var length := h[11..15];
      U32Of(length, h[11], h[12], h[13], h[14]);
    }
  }

  /** The first bytes of a record, the first length byte included. */
  lemma RecordHead(codec: Codec, r: Record)
    requires |r.payload| <= MAX_RECORD
    ensures |EncodeRecord(codec, r)| == HEADER + |r.payload|
    ensures EncodeRecord(codec, r)[..10] == MAGIC && EncodeRecord(codec, r)[11] == 0
  {
    var h, size := EncodeHeader(codec, r), PutU32(|r.payload|);
    assert h[11] == size[0];
    U32Of(size, size[0], size[1], size[2], size[3]);
    assert FromBigEndian(size) == |r.payload| && GetU32(size) == |r.payload|;
  }

  /** A write that failed within the first twelve bytes makes the journal unreadable once anything follows. */
  lemma {:induction false} TornEarly(codec: Codec, d: Disk, r: Record, n: nat, later: seq<Record>)
    requires |r.payload| <= MAX_RECORD && 0 < n <= 12
    requires later != [] && |later[0].payload| <= MAX_RECORD
    ensures n <= |EncodeRecord(codec, r)|
    ensures Replay(codec, d, EncodeRecord(codec, r)[..n] + EncodeAll(codec, later)) == Corrupt
  {
    RecordHead(codec, r);
    RecordHead(codec, later[0]);
    var torn, next := EncodeRecord(codec, r)[..n], EncodeRecord(codec, later[0]);
    var rest := torn + EncodeAll(codec, later);
    var h := rest[..HEADER];
    forall i | n <= i < HEADER && i - n < 10
      ensures h[i] == MAGIC[i - n]
    {
      assert h[i] == EncodeAll(codec, later)[i - n] == next[i - n] == next[..10][i - n];
    }
    if n >= 12 { assert h[11] == torn[11]; }
    TornHeader(h, n);
  }

  /** The payload that is read when a write failed `n` bytes into a record and other bytes follow. */
  function Spliced(r: Record, n: nat, tail: Bytes): Bytes
    requires HEADER <= n <= HEADER + |r.payload| <= n + |tail|
  {
    r.payload[..n - HEADER] + tail[..HEADER + |r.payload| - n]
  }

  /**
   * A write that failed within the payload: what follows fills the record up. Too few bytes, and all
   * of them are dropped as an incomplete tail; enough, and the journal is unreadable unless the
   * checksum of the mixture happens to be that of the payload.
   */
  lemma {:induction false} TornLate(codec: Codec, d: Disk, r: Record, n: nat, tail: Bytes)
    requires |r.payload| <= MAX_RECORD && HEADER <= n < HEADER + |r.payload|
    ensures n <= |EncodeRecord(codec, r)|
    ensures var missing := HEADER + |r.payload| - n;
            Replay(codec, d, EncodeRecord(codec, r)[..n] + tail) ==
            if |tail| < missing then Recovered(d, 0)
            else if codec.crc(Spliced(r, n, tail)) != codec.crc(r.payload) then Corrupt
            else match Apply(codec, d, Record(r.kind, Spliced(r, n, tail)))
              case None => Corrupt
              case Some(e) => Longer(Replay(codec, e, tail[missing..]), HEADER + |r.payload|)
  {
    var record := EncodeRecord(codec, r);
    var rest := record[..n] + tail;
    ReadHeaderWritten(codec, r);
    assert rest[..HEADER] == EncodeHeader(codec, r);
    var missing := HEADER + |r.payload| - n;
    if |tail| >= missing {
      assert rest[HEADER..HEADER + |r.payload|] == Spliced(r, n, tail);
      assert rest[HEADER + |r.payload|..] == tail[missing..];
    }
  }

  /** A journal whose append of `r` failed after `n` bytes and that went on to append `later`. */
  function AfterFailure(codec: Codec, rs: seq<Record>, r: Record, n: nat, later: seq<Record>): Bytes
    requires n <= |EncodeRecord(codec, r)|
  {
    EncodeAll(codec, rs) + (EncodeRecord(codec, r)[..n] + EncodeAll(codec, later))
  }

  /** A failed append is harmless as long as it is the last one. */
  lemma {:induction false} FailureLast(codec: Codec, rs: seq<Record>, r: Record, n: nat)
    requires AllWellFormed(codec, rs) && |r.payload| <= MAX_RECORD && n < HEADER + |r.payload|
    ensures n <= |EncodeRecord(codec, r)| && Fold(codec, EMPTY, rs).Some?
    ensures Replay(codec, EMPTY, AfterFailure(codec, rs, r, n, [])) == Recovered(Fold(codec, EMPTY, rs).value, |EncodeAll(codec, rs)|)
  {
    ReplayPartial(codec, Fold(codec, EMPTY, rs).value, r, n) by { FoldTotal(codec, EMPTY, rs); }
    ReplayPast(codec, EMPTY, rs, EncodeRecord(codec, r)[..n]);
    assert EncodeRecord(codec, r)[..n] + [] == EncodeRecord(codec, r)[..n];
  }

  /** The payload length and the checksum that a torn record and what follows it pretend to. */
  function Claim(rest: Bytes): (nat, nat)
    requires |rest| >= HEADER
  {
    (GetU32(rest[11..15]), GetU32(rest[15..19]))
  }

  /** The payload they pretend to. */
  function Claimed(rest: Bytes): Bytes
    requires |rest| >= HEADER && HEADER + Claim(rest).0 <= |rest|
  {
    rest[HEADER..HEADER + Claim(rest).0]
  }

  /** What replay does behind a complete start of a header, whatever follows. */
  lemma {:induction false} BehindMagic(codec: Codec, d: Disk, rest: Bytes)
    requires |rest| >= HEADER && rest[..10] == MAGIC
    ensures var (length, sum) := Claim(rest);
            if length > MAX_RECORD then Replay(codec, d, rest) == Corrupt
            else if |rest| < HEADER + length then Replay(codec, d, rest) == Recovered(d, 0)
            else codec.crc(Claimed(rest)) != sum ==> Replay(codec, d, rest) == Corrupt
  {
    assert rest[..HEADER][..10] == MAGIC && rest[..HEADER][11..15] == rest[11..15] && rest[..HEADER][15..19] == rest[15..19];
  }

  /** From the tenth byte on a torn record starts like a whole one. */
  lemma TornMagic(codec: Codec, r: Record, n: nat, tail: Bytes)
    requires |r.payload| <= MAX_RECORD && 10 <= n <= HEADER + |r.payload|
    ensures n <= |EncodeRecord(codec, r)| && (EncodeRecord(codec, r)[..n] + tail)[..10] == MAGIC
  {
    RecordHead(codec, r);
    var record := EncodeRecord(codec, r);
    assert (record[..n] + tail)[..10] == record[..10];
  }

  /** The length is the record's own from the fifteenth byte on, the checksum from the nineteenth. */
  lemma ClaimIsOwn(codec: Codec, r: Record, n: nat, tail: Bytes)
    requires |r.payload| <= MAX_RECORD && 15 <= n <= HEADER + |r.payload| && n + |tail| >= HEADER
    ensures n <= |EncodeRecord(codec, r)|
    ensures var rest := EncodeRecord(codec, r)[..n] + tail;
            Claim(rest).0 == |r.payload| && (n >= HEADER ==> Claim(rest).1 == codec.crc(r.payload))
  {
    ReadHeaderWritten(codec, r);
    var record := EncodeRecord(codec, r);
    var rest := record[..n] + tail;
    assert rest[11..15] == EncodeHeader(codec, r)[11..15];
    if n >= HEADER { assert rest[15..19] == EncodeHeader(codec, r)[15..19]; }
  }

  /**
   * A failed append followed by further ones, torn at any byte: the journal becomes unreadable, or
   * everything appended later is dropped, unless the bytes taken for the payload happen to have the
   * checksum claimed for them. Up to the twelfth byte it is always unreadable.
   */
  lemma {:induction false} FailureSpoils(codec: Codec, rs: seq<Record>, r: Record, n: nat, later: seq<Record>)
    requires AllWellFormed(codec, rs) && AllWellFormed(codec, later) && later != []
    requires |r.payload| <= MAX_RECORD && 0 < n < HEADER + |r.payload|
    ensures n <= |EncodeRecord(codec, r)| && Fold(codec, EMPTY, rs).Some? && |EncodeAll(codec, later)| >= HEADER
    ensures var o := Replay(codec, EMPTY, AfterFailure(codec, rs, r, n, later));
            var rest := EncodeRecord(codec, r)[..n] + EncodeAll(codec, later);
            var (length, sum) := Claim(rest);
            if n <= 12 || length > MAX_RECORD then o == Corrupt
            else if |rest| < HEADER + length then o == Recovered(Fold(codec, EMPTY, rs).value, |EncodeAll(codec, rs)|)
            else codec.crc(Claimed(rest)) != sum ==> o == Corrupt
  {
    var rest := EncodeRecord(codec, r)[..n] + EncodeAll(codec, later);
    ReplayPast(codec, EMPTY, rs, rest);
    var d := Fold(codec, EMPTY, rs).value;
    assert WellFormed(codec, later[0]);
    if n <= 12 {
      TornEarly(codec, d, r, n, later);
    } else {
      TornMagic(codec, r, n, EncodeAll(codec, later));
      BehindMagic(codec, d, rest);
    }
  }
}
