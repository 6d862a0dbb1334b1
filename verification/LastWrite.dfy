/** What replaying a journal gives: for every key the last record that wrote it. (internal/storage/storage.go) */
module LastWrite {
  import opened Base
  import opened Protocol
  import opened Journal

  // ---- which record writes what --------------------------------------------

  predicate WritesBlock(codec: Codec, r: Record, h: Text) {
    r.kind == 1 && codec.dec(r.payload).Some? && codec.dec(r.payload).value.hash == h
  }

  predicate WritesCheckpoint(r: Record, h: Text) { r.kind == 3 && |r.payload| >= 65 && r.payload[..64] == h }

  lemma {:induction false} FoldLast(codec: Codec, d: Disk, rs: seq<Record>)
    requires rs != [] && Fold(codec, d, rs).Some?
    ensures Fold(codec, d, rs[..|rs| - 1]).Some?
    ensures Apply(codec, Fold(codec, d, rs[..|rs| - 1]).value, rs[|rs| - 1]) == Fold(codec, d, rs)
    decreases |rs|
  {
    if |rs| > 1 {
      var e := Apply(codec, d, rs[0]).value;
      FoldLast(codec, e, rs[1..]);
      assert rs[1..][..|rs[1..]| - 1] == rs[..|rs| - 1][1..];
    } else {
      assert rs[1..] == [] && rs[..0] == [];
    }
  }

  // ---- the last one wins ---------------------------------------------------

  /** The tip is the payload of the last tip record. */
  lemma {:induction false} TipIsLast(codec: Codec, rs: seq<Record>, i: nat)
    requires Fold(codec, EMPTY, rs).Some?
    ensures (forall j :: 0 <= j < |rs| ==> rs[j].kind != 2) ==> Fold(codec, EMPTY, rs).value.tip == []
    ensures i < |rs| && rs[i].kind == 2 && (forall j :: i < j < |rs| ==> rs[j].kind != 2) ==> Fold(codec, EMPTY, rs).value.tip == rs[i].payload
    decreases |rs|
  {
    if rs != [] {
      var init := rs[..|rs| - 1];
      FoldLast(codec, EMPTY, rs);
      TipIsLast(codec, init, i);
      assert forall j :: 0 <= j < |init| ==> init[j] == rs[j];
    }
  }

  /** A hash holds the payload of the last block record that decodes to it, and is absent without one. */
  lemma {:induction false} BlockIsLast(codec: Codec, rs: seq<Record>, h: Text, i: nat)
    requires Fold(codec, EMPTY, rs).Some?
    ensures (forall j :: 0 <= j < |rs| ==> !WritesBlock(codec, rs[j], h)) ==> h !in Fold(codec, EMPTY, rs).value.blocks
    ensures i < |rs| && WritesBlock(codec, rs[i], h) && (forall j :: i < j < |rs| ==> !WritesBlock(codec, rs[j], h)) ==>
              var d := Fold(codec, EMPTY, rs).value; h in d.blocks && d.blocks[h] == rs[i].payload
    decreases |rs|
  {
    if rs != [] {
      var init := rs[..|rs| - 1];
      FoldLast(codec, EMPTY, rs);
      BlockIsLast(codec, init, h, i);
      assert forall j :: 0 <= j < |init| ==> init[j] == rs[j];
    }
  }

  /** A checkpoint is what follows the hash in the last record for it. */
  lemma {:induction false} CheckpointIsLast(codec: Codec, rs: seq<Record>, h: Text, i: nat)
    requires Fold(codec, EMPTY, rs).Some?
    ensures (forall j :: 0 <= j < |rs| ==> !WritesCheckpoint(rs[j], h)) ==> h !in Fold(codec, EMPTY, rs).value.checkpoints
    ensures i < |rs| && WritesCheckpoint(rs[i], h) && (forall j :: i < j < |rs| ==> !WritesCheckpoint(rs[j], h)) ==>
              var d := Fold(codec, EMPTY, rs).value; h in d.checkpoints && d.checkpoints[h] == rs[i].payload[64..]
    decreases |rs|
  {
    if rs != [] {
      var init := rs[..|rs| - 1];
      FoldLast(codec, EMPTY, rs);
      CheckpointIsLast(codec, init, h, i);
      assert forall j :: 0 <= j < |init| ==> init[j] == rs[j];
    }
  }

  // ---- which records can be read ---------------------------------------------

  /** A block that decodes and has a hash, any tip, a checkpoint with at least one byte behind its hash. */
  predicate Readable(codec: Codec, r: Record) {
    || (r.kind == 1 && codec.dec(r.payload).Some? && codec.dec(r.payload).value.hash != [])
    || r.kind == 2
    || (r.kind == 3 && |r.payload| >= 65)
  }

  /** A list of records folds exactly when every one can be read. */
  lemma {:induction false} FoldsIffReadable(codec: Codec, d: Disk, rs: seq<Record>)
    ensures Fold(codec, d, rs).Some? <==> forall i :: 0 <= i < |rs| ==> Readable(codec, rs[i])
    decreases |rs|
  {
    if rs != [] {
      var tail := rs[1..];
      assert forall i :: 0 <= i < |tail| ==> tail[i] == rs[i + 1];
      if Readable(codec, rs[0]) {
        FoldsIffReadable(codec, Apply(codec, d, rs[0]).value, tail);
        assert forall i :: 0 < i < |rs| ==> rs[i] == tail[i - 1];
      }
    }
  }

  // ---- the bytes of a record ---------------------------------------------------

  function Word32(b: Bytes, at: nat): int
    requires at + 4 <= |b|
  {
    var w: int := b[at];
    var x: int := b[at + 1];
    var y: int := b[at + 2];
    var z: int := b[at + 3];
    w * 0x100_0000 + x * 0x1_0000 + y * 0x100 + z
  }

  lemma Word32Reads(x: u32, b: Bytes, at: nat)
    requires at + 4 <= |b| && b[at..at + 4] == PutU32(x)
    ensures Word32(b, at) == x
  {
    var w := b[at..at + 4];
    assert w[0] == b[at] && w[1] == b[at + 1] && w[2] == b[at + 2] && w[3] == b[at + 3];
    assert w[..3][..2] == w[..2] && w[..3][2] == w[2] && w[..2][..1] == w[..1] && w[..2][1] == w[1] && w[..1][..0] == [] && w[..1][0] == w[0];
    assert FromBigEndian(w) == FromBigEndian(w[..3]) * 256 + w[3];
    assert FromBigEndian(w[..3]) == FromBigEndian(w[..2]) * 256 + w[2];
    assert FromBigEndian(w[..2]) == FromBigEndian(w[..1]) * 256 + w[1];
    assert FromBigEndian(w[..1]) == w[0];
  }

  /** "SYJDB001", the version 0 1, the kind, the length and the checksum big-endian, the payload. */
  lemma RecordLayout(codec: Codec, r: Record)
    requires |r.payload| < 0x1_0000_0000
    ensures var b := EncodeRecord(codec, r);
            && |b| == 19 + |r.payload| && b[..10] == [83, 89, 74, 68, 66, 48, 48, 49, 0, 1] && b[10] == r.kind
            && Word32(b, 11) == |r.payload| && Word32(b, 15) == codec.crc(r.payload) && b[19..] == r.payload
  {
    var b, n := EncodeRecord(codec, r), |r.payload|;
    var h := EncodeHeader(codec, r);
    assert b[..19] == h && b[19..] == r.payload;
    assert MAGIC == [83, 89, 74, 68, 66, 48, 48, 49, 0, 1];
    assert h[..10] == MAGIC && b[..10] == h[..10];
    assert b[11..15] == PutU32(n) && b[15..19] == PutU32(codec.crc(r.payload));
    Word32Reads(n, b, 11);
    Word32Reads(codec.crc(r.payload), b, 15);
  }
}
