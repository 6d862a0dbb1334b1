/**
 * The JSON form in which the journal keeps blocks, and which blocks are read back as they were
 * written. Indexes, difficulties and whole timestamps are unbounded. (internal/codec/codec.go)
 */
module BlockJson {
  import opened Base
  import opened Protocol
  import opened Ledger
  import opened CanonicalJson
  import Journal
  import Persist
  import Utf8

  /** A member's name. */
  predicate IsName(k: Text) { forall i :: 0 <= i < |k| ==> 95 <= k[i] <= 122 }

  type Name = k: Text | IsName(k) witness []

  const AMOUNT: Name := Ascii("amount_base_units")
  const NETWORK: Name := Ascii("network_id")
  const NONCE: Name := Ascii("nonce")
  const RECEIVER: Name := Ascii("receiver")
  const SENDER: Name := Ascii("sender")
  const PUBLIC_KEY: Name := Ascii("sender_public_key")
  const SIGNATURE: Name := Ascii("signature")
  const TIMESTAMP: Name := Ascii("timestamp")
  const TX_HASH: Name := Ascii("tx_hash")
  const TX_ID: Name := Ascii("tx_id")
  const VERSION: Name := Ascii("version")
  const INDEX: Name := Ascii("index")
  const PREVIOUS: Name := Ascii("previous_hash")
  const DIFFICULTY: Name := Ascii("difficulty")
  const ROOT: Name := Ascii("merkle_root")
  const HASH: Name := Ascii("hash")
  const TRANSACTIONS: Name := Ascii("transactions")

  // ---- writing -------------------------------------------------------------

  /** `nilOrString`. */
  function OrNull(t: Text): Json { if t == [] then Null else Str(t) }

  /** `transactionMap`. */
  function TxJson(tx: Tx): Json {
    if tx.version == 2 then
      Obj(map[
        AMOUNT := Num(tx.amount), NETWORK := Str(tx.networkId), NONCE := Num(tx.nonce), RECEIVER := Str(tx.receiver),
        SENDER := Str(tx.sender), PUBLIC_KEY := OrNull(tx.publicKey), SIGNATURE := OrNull(tx.signature),
        TIMESTAMP := Whole(tx.timestamp), TX_ID := Str(tx.txId), VERSION := Num(tx.version)])
    else
      Obj(map[
        SENDER := Str(tx.sender), RECEIVER := Str(tx.receiver), AMOUNT := Num(tx.amount), TIMESTAMP := Whole(tx.timestamp),
        PUBLIC_KEY := OrNull(tx.publicKey), SIGNATURE := OrNull(tx.signature), TX_HASH := Str(tx.txHash)])
  }

  function TxJsons(txs: seq<Tx>): seq<Json> { seq(|txs|, i requires 0 <= i < |txs| => TxJson(txs[i])) }

  function BlockJson(b: Block): Json {
    Obj(map[
      INDEX := Num(b.header.index), PREVIOUS := Str(b.header.previousHash), TIMESTAMP := Whole(b.header.timestamp),
      NONCE := Num(b.header.nonce), DIFFICULTY := Num(b.header.difficulty), ROOT := Str(b.header.merkleRoot),
      HASH := Str(b.hash), TRANSACTIONS := Arr(TxJsons(b.txs))])
  }

  // ---- reading -------------------------------------------------------------

  type Members = map<Text, Json>

  /** The members a struct is filled from; `null` fills nothing. */
  function MembersOf(v: Json): Option<Members> {
    if v.Obj? then Some(v.m) else if v.Null? then Some(map[]) else None
  }

  /** One field: an absent or `null` member leaves the zero value, one of another type is an error. */
  function TextAt(m: Members, k: Text): Option<Text> {
    if k !in m || m[k].Null? then Some([]) else if m[k].Str? then Some(m[k].s) else None
  }

  function IntAt(m: Members, k: Text): Option<int> {
    if k !in m || m[k].Null? then Some(0) else if m[k].Num? then Some(m[k].i) else None
  }

  function WordAt(m: Members, k: Text): Option<u64> {
    var i :- IntAt(m, k);
    if 0 <= i < TWO64 then Some(i) else None
  }

  function ByteAt(m: Members, k: Text): Option<byte> {
    var i :- IntAt(m, k);
    if 0 <= i < 256 then Some(i) else None
  }

  function TimeAt(m: Members, k: Text): Option<int> {
    if k !in m || m[k].Null? then Some(0) else if m[k].Num? || m[k].Whole? then Some(m[k].i) else None
  }

  function ItemsAt(m: Members, k: Text): Option<seq<Json>> {
    if k !in m || m[k].Null? then Some([]) else if m[k].Arr? then Some(m[k].xs) else None
  }

  /** The fields of a transaction as `json.Unmarshal` fills them in. */
  function RawTx(m: Members): Option<Tx> {
    var version :- ByteAt(m, VERSION);
    var networkId :- TextAt(m, NETWORK);
    var nonce :- WordAt(m, NONCE);
    var sender :- TextAt(m, SENDER);
    var receiver :- TextAt(m, RECEIVER);
    var amount :- WordAt(m, AMOUNT);
    var timestamp :- TimeAt(m, TIMESTAMP);
    var publicKey :- TextAt(m, PUBLIC_KEY);
    var signature :- TextAt(m, SIGNATURE);
    var txHash :- TextAt(m, TX_HASH);
    var txId :- TextAt(m, TX_ID);
    Some(Tx(version, networkId, nonce, sender, receiver, amount, timestamp, publicKey, signature, txHash, txId))
  }

  /** The tests on them, and the fields each version keeps. */
  function Checked(raw: Tx): Option<Tx> {
    if raw.sender == [] || raw.receiver == [] then None
    else if raw.version == 2 then
      if raw.networkId == [] || raw.txId == [] then None else Some(raw.(txHash := []))
    else if raw.txHash == [] || raw.version != 0 then None
    else Some(raw.(networkId := [], nonce := 0, txId := []))
  }

  /** `DecodeTransaction`. */
  function TxOf(v: Json): Option<Tx> {
    var m :- MembersOf(v);
    var raw :- RawTx(m);
    Checked(raw)
  }

  function TxsOf(vs: seq<Json>): Option<seq<Tx>> {
    if vs == [] then Some([])
    else
      var txs :- TxsOf(vs[..|vs| - 1]);
      var tx :- TxOf(vs[|vs| - 1]);
      Some(txs + [tx])
  }

  function RawHeader(m: Members): Option<Header> {
    var index :- IntAt(m, INDEX);
    var previousHash :- TextAt(m, PREVIOUS);
    var timestamp :- TimeAt(m, TIMESTAMP);
    var nonce :- WordAt(m, NONCE);
    var difficulty :- IntAt(m, DIFFICULTY);
    var merkleRoot :- TextAt(m, ROOT);
    Some(Header(index, previousHash, timestamp, nonce, difficulty, merkleRoot))
  }

  function BlockOf(v: Json): Option<Block> {
    var m :- MembersOf(v);
    var header :- RawHeader(m);
    var hash :- TextAt(m, HASH);
    var items :- ItemsAt(m, TRANSACTIONS);
    var txs :- TxsOf(items);
    Some(Block(header, txs, hash))
  }

  /** `DecodeBlock`: nothing may follow the value. */
  function Decoded(d: Bytes): Option<Block> {
    var (v, rest) :- Parse(d);
    if rest == [] then BlockOf(v) else None
  }

  /** The codec the journal is opened with. */
  ghost function JsonCodec(crc: Bytes -> u32): Journal.Codec {
    Journal.Codec(crc, b => Encode(BlockJson(b)), d => Decoded(d))
  }

  // ---- the loops -----------------------------------------------------------

  /** `BlockBytes`. */
  method BlockBytes(b: Block) returns (d: Bytes)
    ensures d == Encode(BlockJson(b))
  {
    var txs: seq<Json> := [];
    for i := 0 to |b.txs|
      invariant txs == TxJsons(b.txs)[..i]
    {
      txs := txs + [TxJson(b.txs[i])];
    }
    assert txs == TxJsons(b.txs);
    d := Marshal(Obj(map[
      INDEX := Num(b.header.index), PREVIOUS := Str(b.header.previousHash), TIMESTAMP := Whole(b.header.timestamp),
      NONCE := Num(b.header.nonce), DIFFICULTY := Num(b.header.difficulty), ROOT := Str(b.header.merkleRoot),
      HASH := Str(b.hash), TRANSACTIONS := Arr(txs)]));
  }

  /** The loop of `DecodeBlock` over the raw transactions. */
  method DecodeTransactions(items: seq<Json>) returns (txs: Option<seq<Tx>>)
    ensures txs == TxsOf(items)
  {
    var done: seq<Tx> := [];
    for i := 0 to |items|
      invariant TxsOf(items[..i]) == Some(done)
    {
      assert items[..i + 1][..i] == items[..i];
      var tx := TxOf(items[i]);
      if tx.None? {
        Undecodable(items, i);
        return None;
      }
      done := done + [tx.value];
    }
    assert items[..|items|] == items;
    txs := Some(done);
  }

  /** One transaction that does not decode refuses the whole list. */
  lemma {:induction false} Undecodable(vs: seq<Json>, i: nat)
    requires i < |vs| && TxOf(vs[i]).None?
    ensures TxsOf(vs).None?
    decreases |vs|
  {
    if i < |vs| - 1 { Undecodable(vs[..|vs| - 1], i); }
  }

  method DecodeBlock(d: Bytes) returns (b: Option<Block>)
    ensures b == Decoded(d)
  {
    var parsed := Parse(d);
    if parsed.None? || parsed.value.1 != [] { return None; }
    var m := MembersOf(parsed.value.0);
    if m.None? { return None; }
    var header, hash, items := RawHeader(m.value), TextAt(m.value, HASH), ItemsAt(m.value, TRANSACTIONS);
    if header.None? || hash.None? || items.None? { return None; }
    var txs := DecodeTransactions(items.value);
    if txs.None? { return None; }
    b := Some(Block(header.value, txs.value, hash.value));
  }

  // ---- texts ---------------------------------------------------------------

  lemma {:induction false} ReplacedIsEmpty(t: Text)
    ensures Replaced(t) == [] <==> t == []
    ensures Utf8.WellFormed(t) <==> Replaced(t) == t
  {
  }

  // ---- one transaction -----------------------------------------------------

  /** A transaction with every ill-formed text replaced. */
  function CleanTx(tx: Tx): Tx {
    tx.(networkId := Replaced(tx.networkId), sender := Replaced(tx.sender), receiver := Replaced(tx.receiver),
        publicKey := Replaced(tx.publicKey), signature := Replaced(tx.signature), txHash := Replaced(tx.txHash), txId := Replaced(tx.txId))
  }

  lemma TxKeys()
    ensures |AMOUNT| == 17 && |NETWORK| == 10 && |NONCE| == 5 && |RECEIVER| == 8 && |SENDER| == 6 && |PUBLIC_KEY| == 17
    ensures |SIGNATURE| == 9 && |TIMESTAMP| == 9 && |TX_HASH| == 7 && |TX_ID| == 5 && |VERSION| == 7
    ensures AMOUNT[0] == 97 && PUBLIC_KEY[0] == 115 && NONCE[0] == 110 && TX_ID[0] == 116 && SIGNATURE[0] == 115 && TIMESTAMP[0] == 116
    ensures TX_HASH[0] == 116 && VERSION[0] == 118
  {
  }

  /** A member, absent or `null` for the zero value, and its field as it is read back. */
  predicate TextIn(m: Members, k: Text, t: Text) { if k !in m || m[k].Null? then t == [] else m[k] == Str(t) }
  predicate IntIn(m: Members, k: Text, i: int) { if k !in m then i == 0 else m[k] == Num(i) }
  predicate TimeIn(m: Members, k: Text, i: int) { k in m && m[k] == Whole(i) }

  lemma TextRead(m: Members, k: Text, t: Text)
    requires TextIn(m, k, t)
    ensures TextAt(Cleaned(Obj(m)).m, k) == Some(Replaced(t))
  {
    assert Replaced([]) == [];
    if k in m { assert Cleaned(Obj(m)).m[k] == Cleaned(m[k]); }
  }

  lemma IntRead(m: Members, k: Text, i: int)
    requires IntIn(m, k, i)
    ensures IntAt(Cleaned(Obj(m)).m, k) == Some(i)
  {
    if k in m { assert Cleaned(Obj(m)).m[k] == Cleaned(m[k]); }
  }

  lemma TimeRead(m: Members, k: Text, i: int)
    requires TimeIn(m, k, i)
    ensures TimeAt(Cleaned(Obj(m)).m, k) == Some(i)
  {
    assert Cleaned(Obj(m)).m[k] == Cleaned(m[k]);
  }

  /** The members hold these fields. */
  predicate TxIn(m: Members, raw: Tx) {
    && raw.version < 256 && IntIn(m, VERSION, raw.version) && TextIn(m, NETWORK, raw.networkId) && IntIn(m, NONCE, raw.nonce)
    && TextIn(m, SENDER, raw.sender) && TextIn(m, RECEIVER, raw.receiver) && IntIn(m, AMOUNT, raw.amount)
    && TimeIn(m, TIMESTAMP, raw.timestamp) && TextIn(m, PUBLIC_KEY, raw.publicKey) && TextIn(m, SIGNATURE, raw.signature)
    && TextIn(m, TX_HASH, raw.txHash) && TextIn(m, TX_ID, raw.txId)
  }

  lemma TxFilled(m: Members, raw: Tx)
    requires TxIn(m, raw)
    ensures RawTx(Cleaned(Obj(m)).m) == Some(CleanTx(raw))
  {
    IntRead(m, VERSION, raw.version);
    TextRead(m, NETWORK, raw.networkId);
    IntRead(m, NONCE, raw.nonce);
    TextRead(m, SENDER, raw.sender);
    TextRead(m, RECEIVER, raw.receiver);
    IntRead(m, AMOUNT, raw.amount);
    TimeRead(m, TIMESTAMP, raw.timestamp);
    TextRead(m, PUBLIC_KEY, raw.publicKey);
    TextRead(m, SIGNATURE, raw.signature);
    TextRead(m, TX_HASH, raw.txHash);
    TextRead(m, TX_ID, raw.txId);
  }

  /** What the written form of a transaction carries. */
  function Carried(tx: Tx): Tx {
    if tx.version == 2 then tx.(txHash := []) else tx.(version := 0, networkId := [], nonce := 0, txId := [])
  }

  lemma TxWritten(tx: Tx)
    ensures TxIn(TxJson(tx).m, Carried(tx))
  {
    TxKeys();
  }

  lemma TxRead(tx: Tx)
    ensures TxOf(Cleaned(TxJson(tx))) == Checked(CleanTx(Carried(tx)))
  {
    TxWritten(tx);
    TxFilled(TxJson(tx).m, Carried(tx));
    assert Cleaned(TxJson(tx)) == Obj(Cleaned(TxJson(tx)).m);
  }

  lemma LegibleIsClean(tx: Tx)
    ensures Journal.LegibleTx(tx) <==> CleanTx(tx) == tx
  {
    var texts := [tx.networkId, tx.sender, tx.receiver, tx.publicKey, tx.signature, tx.txHash, tx.txId];
    assert texts[0] == tx.networkId && texts[1] == tx.sender && texts[2] == tx.receiver && texts[3] == tx.publicKey;
    assert texts[4] == tx.signature && texts[5] == tx.txHash && texts[6] == tx.txId;
    if CleanTx(tx) == tx {
      forall t | t in texts
        ensures Utf8.WellFormed(t)
      {
        var i :| 0 <= i < 7 && texts[i] == t;
        assert Replaced(texts[i]) == texts[i];
      }
    }
    if Journal.LegibleTx(tx) {
      forall i | 0 <= i < 7
        ensures Replaced(texts[i]) == texts[i]
      {
        assert texts[i] in texts && Utf8.WellFormed(texts[i]);
      }
    }
  }

  /** A transaction is read back as it was written exactly when it is in normal form. */
  lemma TxRoundTrip(tx: Tx)
    ensures TxOf(Cleaned(TxJson(tx))) == Some(tx) <==> Journal.NormalTx(tx)
  {
    TxRead(tx);
    LegibleIsClean(tx);
    ReplacedIsEmpty(tx.sender);
    ReplacedIsEmpty(tx.receiver);
    ReplacedIsEmpty(tx.networkId);
    ReplacedIsEmpty(tx.txId);
    ReplacedIsEmpty(tx.txHash);
  }

  // ---- one block -----------------------------------------------------------

  /** The transactions' values as they are read back. */
  ghost function ReadBack(txs: seq<Tx>): seq<Json> { Cleaned(Arr(TxJsons(txs))).xs }

  lemma ReadBackSnoc(txs: seq<Tx>, tx: Tx)
    ensures ReadBack(txs + [tx]) == ReadBack(txs) + [Cleaned(TxJson(tx))]
  {
    assert TxJsons(txs + [tx]) == TxJsons(txs) + [TxJson(tx)];
  }

  lemma TxsOfSnoc(vs: seq<Json>, v: Json)
    ensures TxsOf(vs + [v]) == if TxsOf(vs).Some? && TxOf(v).Some? then Some(TxsOf(vs).value + [TxOf(v).value]) else None
  {
    assert (vs + [v])[..|vs|] == vs;
  }

  lemma SnocInjective<T>(a: seq<T>, x: T, b: seq<T>, y: T)
    ensures a + [x] == b + [y] <==> a == b && x == y
  {
    if a + [x] == b + [y] {
      assert (a + [x])[..|a|] == a && (b + [y])[..|b|] == b;
      assert (a + [x])[|a|] == x && (b + [y])[|b|] == y;
    }
  }

  predicate AllNormal(txs: seq<Tx>) { forall i :: 0 <= i < |txs| ==> Journal.NormalTx(txs[i]) }

  lemma AllNormalSnoc(txs: seq<Tx>, tx: Tx)
    ensures AllNormal(txs + [tx]) <==> AllNormal(txs) && Journal.NormalTx(tx)
  {
    var all := txs + [tx];
    assert forall i :: 0 <= i < |txs| ==> txs[i] == all[i];
    assert all[|txs|] == tx;
  }

  lemma {:induction false} TxsRoundTrip(txs: seq<Tx>)
    ensures TxsOf(ReadBack(txs)) == Some(txs) <==> AllNormal(txs)
    decreases |txs|
  {
    if txs != [] {
      var init, last := txs[..|txs| - 1], txs[|txs| - 1];
      assert txs == init + [last];
      TxsRoundTrip(init);
      TxRoundTrip(last);
      ReadBackSnoc(init, last);
      TxsOfSnoc(ReadBack(init), Cleaned(TxJson(last)));
      AllNormalSnoc(init, last);
      if TxsOf(ReadBack(txs)).Some? {
        SnocInjective(TxsOf(ReadBack(init)).value, TxOf(Cleaned(TxJson(last))).value, init, last);
      }
    }
  }

  function CleanHeader(h: Header): Header {
    h.(previousHash := Replaced(h.previousHash), merkleRoot := Replaced(h.merkleRoot))
  }

  predicate HeaderIn(m: Members, h: Header) {
    && IntIn(m, INDEX, h.index) && TextIn(m, PREVIOUS, h.previousHash) && TimeIn(m, TIMESTAMP, h.timestamp)
    && IntIn(m, NONCE, h.nonce) && IntIn(m, DIFFICULTY, h.difficulty) && TextIn(m, ROOT, h.merkleRoot)
  }

  lemma BlockKeys()
    ensures |INDEX| == 5 && |PREVIOUS| == 13 && |TIMESTAMP| == 9 && |NONCE| == 5 && |DIFFICULTY| == 10 && |ROOT| == 11
    ensures |HASH| == 4 && |TRANSACTIONS| == 12 && INDEX[0] == 105 && NONCE[0] == 110
  {
  }

  lemma BlockWritten(b: Block)
    ensures HeaderIn(BlockJson(b).m, b.header) && TextIn(BlockJson(b).m, HASH, b.hash)
    ensures TRANSACTIONS in BlockJson(b).m && BlockJson(b).m[TRANSACTIONS] == Arr(TxJsons(b.txs))
  {
    BlockKeys();
  }

  lemma HeaderFilled(m: Members, h: Header)
    requires HeaderIn(m, h)
    ensures RawHeader(Cleaned(Obj(m)).m) == Some(CleanHeader(h))
  {
    IntRead(m, INDEX, h.index);
    TextRead(m, PREVIOUS, h.previousHash);
    TimeRead(m, TIMESTAMP, h.timestamp);
    IntRead(m, NONCE, h.nonce);
    IntRead(m, DIFFICULTY, h.difficulty);
    TextRead(m, ROOT, h.merkleRoot);
  }

  lemma ItemsRead(m: Members, vs: seq<Json>)
    requires TRANSACTIONS in m && m[TRANSACTIONS] == Arr(vs)
    ensures ItemsAt(Cleaned(Obj(m)).m, TRANSACTIONS) == Some(Cleaned(Arr(vs)).xs)
  {
    assert Cleaned(Obj(m)).m[TRANSACTIONS] == Cleaned(m[TRANSACTIONS]);
  }

  lemma BlockRead(b: Block)
    ensures BlockOf(Cleaned(BlockJson(b))) == match TxsOf(Cleaned(Arr(TxJsons(b.txs))).xs)
            case None => None
            case Some(txs) => Some(Block(CleanHeader(b.header), txs, Replaced(b.hash)))
  {
    var m := BlockJson(b).m;
    BlockWritten(b);
    HeaderFilled(m, b.header);
    TextRead(m, HASH, b.hash);
    ItemsRead(m, TxJsons(b.txs));
  }

  lemma LegibleBlockIsClean(b: Block)
    ensures Journal.Legible(b) <==> CleanHeader(b.header) == b.header && Replaced(b.hash) == b.hash
  {
    var texts := [b.header.previousHash, b.header.merkleRoot, b.hash];
    assert b.header.previousHash in texts && b.header.merkleRoot in texts && b.hash in texts;
    if CleanHeader(b.header) == b.header && Replaced(b.hash) == b.hash {
      forall t | t in texts
        ensures Utf8.WellFormed(t)
      {
        assert Replaced(t) == t;
      }
    }
    if Journal.Legible(b) {
      forall t | t in texts
        ensures Replaced(t) == t
      {
        assert Utf8.WellFormed(t);
      }
    }
  }

  /** Every member's name is ASCII. */
  lemma NamesAreAscii(m: Members)
    requires forall k :: k in m ==> IsName(k) && Named(m[k])
    ensures Named(Obj(m))
  {
    forall k | k in m
      ensures Utf8.WellFormed(k)
    {
      Utf8.AsciiWellFormed(k);
    }
  }

  lemma TxIsNamed(tx: Tx)
    ensures Named(TxJson(tx))
  {
    NamesAreAscii(TxJson(tx).m);
  }

  lemma BlockIsNamed(b: Block)
    ensures Named(BlockJson(b))
  {
    forall i | 0 <= i < |b.txs|
      ensures Named(TxJsons(b.txs)[i])
    {
      TxIsNamed(b.txs[i]);
    }
    NamesAreAscii(BlockJson(b).m);
  }

  /** A block is read back from its journal record as it was written exactly when it is in normal form. */
  lemma BlockRoundTrip(b: Block)
    ensures Decoded(Encode(BlockJson(b))) == Some(b) <==> Journal.Normal(b)
  {
    BlockIsNamed(b);
    ParseEncoded(BlockJson(b), []);
    assert Encode(BlockJson(b)) + [] == Encode(BlockJson(b));
    BlockRead(b);
    TxsRoundTrip(b.txs);
    LegibleBlockIsClean(b);
  }

  /** So the journal's codec is lawful, whatever the checksum. */
  lemma JsonIsLawful(crc: Bytes -> u32)
    ensures Journal.Lawful(JsonCodec(crc))
  {
    forall b | Journal.Normal(b)
      ensures JsonCodec(crc).dec(JsonCodec(crc).enc(b)) == Some(b)
    {
      BlockRoundTrip(b);
    }
  }

  /** A validated block is read back exactly when the fields validation never reads are empty. */
  lemma ValidatedIsReadBack(env: Env, prefix: seq<Block>, b: Block)
    requires ValidEnv(env) && |prefix| > 0 && ValidChain(env, prefix + [b])
    ensures Decoded(Encode(BlockJson(b))) == Some(b) <==> forall i :: 0 <= i < |b.txs| ==> Persist.SpareFieldsEmpty(b.txs[i])
  {
    Persist.ValidatedIsNormal(env, prefix, b);
    BlockRoundTrip(b);
  }
}
