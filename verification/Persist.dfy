/** What a ledger journal may contain, at every record boundary. */
module Persist {
  import opened Base
  import opened Protocol
  import opened Rules
  import opened Merkle
  import opened Ledger
  import opened Checkpoint
  import opened Tree
  import opened Wallets
  import Equivalence
  import Journal

  /** The blocks a disk image decodes to. */
  function Stored(codec: Journal.Codec, d: Journal.Disk): Blocks {
    map h | h in d.blocks && codec.dec(d.blocks[h]).Some? :: codec.dec(d.blocks[h]).value
  }

  /** A checkpoint is the encoded state of its own block's chain. */
  ghost predicate CheckpointOk(env: Env, t: Blocks, cps: map<Text, Bytes>, h: Text)
    requires TreeOk(env.crypto, t) && h in cps
  {
    h in t && var s := LedgerOf(env, ChainOf(env.crypto, t, h));
    s.Some? && FitsRecord(s.value) && cps[h] == Encode(env.crypto, s.value)
  }

  ghost predicate CheckpointsOk(env: Env, t: Blocks, cps: map<Text, Bytes>)
    requires TreeOk(env.crypto, t)
  {
    forall h {:trigger CheckpointOk(env, t, cps, h)} :: h in cps ==> CheckpointOk(env, t, cps, h)
  }

  /** An empty image, or a valid block tree with a stored tip and correct checkpoints. */
  ghost predicate DiskOk(env: Env, codec: Journal.Codec, d: Journal.Disk) {
    d == Journal.EMPTY || GrownDisk(env, codec, d)
  }

  ghost predicate GrownDisk(env: Env, codec: Journal.Codec, d: Journal.Disk) {
    var t := Stored(codec, d);
    && t.Keys == d.blocks.Keys
    && TreeOk(env.crypto, t) && AllValid(env, t)
    && (d.tip == [] || d.tip in t)
    && CheckpointsOk(env, t, d.checkpoints)
  }

  lemma CheckpointsSurvive(env: Env, t: Blocks, u: Blocks, cps: map<Text, Bytes>)
    requires TreeOk(env.crypto, t) && TreeOk(env.crypto, u) && Extends(t, u) && CheckpointsOk(env, t, cps)
    ensures CheckpointsOk(env, u, cps)
  {
    forall h | h in cps
      ensures CheckpointOk(env, u, cps, h)
    {
      assert CheckpointOk(env, t, cps, h);
      ChainMonotone(env.crypto, t, u, h);
    }
  }

  function WithBlock(codec: Journal.Codec, d: Journal.Disk, b: Block): Journal.Disk {
    d.(blocks := d.blocks[b.hash := codec.enc(b)])
  }

  lemma StoredWithBlock(codec: Journal.Codec, d: Journal.Disk, b: Block)
    requires codec.dec(codec.enc(b)) == Some(b)
    ensures Stored(codec, WithBlock(codec, d, b)) == Stored(codec, d)[b.hash := b]
  {
  }

  /** A block record for a validated block. */
  lemma BlockRecordKeeps(env: Env, codec: Journal.Codec, d: Journal.Disk, b: Block)
    requires codec.dec(codec.enc(b)) == Some(b) && GrownDisk(env, codec, d)
    requires var u := Stored(codec, d)[b.hash := b]; TreeOk(env.crypto, u) && AllValid(env, u) && Extends(Stored(codec, d), u)
    ensures GrownDisk(env, codec, WithBlock(codec, d, b))
  {
    StoredWithBlock(codec, d, b);
    CheckpointsSurvive(env, Stored(codec, d), Stored(codec, d)[b.hash := b], d.checkpoints);
  }

  /** The fields that belong to the other transaction version only. */
  predicate SpareFieldsEmpty(tx: Tx) {
    if tx.version == 2 then tx.txHash == [] else tx.networkId == [] && tx.nonce == 0 && tx.txId == []
  }

  /** Parties are addresses, all else is hexadecimal. */
  predicate PlainTx(tx: Tx) {
    && (ValidAddress(tx.sender) || tx.sender == COINBASE_SENDER) && ValidAddress(tx.receiver)
    && AllHex(tx.networkId) && AllHex(tx.publicKey) && AllHex(tx.signature) && AllHex(tx.txHash) && AllHex(tx.txId)
  }

  lemma ValidTxIsPlain(env: Env, reward: u64, tx: Tx)
    requires ValidEnv(env) && TxValid(env, reward, tx) && SpareFieldsEmpty(tx)
    ensures PlainTx(tx)
  {
  }

  lemma PlainIsLegible(tx: Tx)
    requires PlainTx(tx)
    ensures Journal.LegibleTx(tx)
  {
    Journal.SenderIsLegible(tx.sender);
    Journal.SenderIsLegible(tx.receiver);
    Journal.HexIsLegible(tx.networkId);
    Journal.HexIsLegible(tx.publicKey);
    Journal.HexIsLegible(tx.signature);
    Journal.HexIsLegible(tx.txHash);
    Journal.HexIsLegible(tx.txId);
  }

  lemma ValidTxIsNormal(env: Env, reward: u64, tx: Tx)
    requires ValidEnv(env) && TxValid(env, reward, tx)
    ensures Journal.NormalTx(tx) <==> SpareFieldsEmpty(tx)
  {
    if SpareFieldsEmpty(tx) {
      ValidTxIsPlain(env, reward, tx);
      PlainIsLegible(tx);
      Journal.SenderIsLegible(tx.sender);
      Journal.SenderIsLegible(tx.receiver);
    }
  }

  /** A chain's last hash is a printed digest. */
  lemma {:induction false} TipIsHex(env: Env, ch: seq<Block>)
    requires ValidEnv(env) && ValidChain(env, ch)
    ensures AllHex(ch[|ch| - 1].hash)
  {
    if |ch| > 1 {
      Equivalence.ValidIffLedger(env, ch);
      LedgerStep(env, ch);
      var s := LedgerOf(env, ch[..|ch| - 1]).value;
      Equivalence.Accepted(env, ch[..|ch| - 1], ch[|ch| - 1], s);
    }
  }

  lemma {:induction false} ValidatedIsLegible(env: Env, prefix: seq<Block>, b: Block, reward: u64)
    requires ValidEnv(env) && ValidChain(env, prefix)
    requires Structure(env, prefix, b, reward) && HeaderOk(env, b, prefix)
    ensures Journal.Legible(b)
  {
    TipIsHex(env, prefix);
    StructureRootIsHex(env, prefix, b, reward);
    assert b.header.previousHash == prefix[|prefix| - 1].hash;
    HexBlockIsLegible(b);
  }

  lemma StructureRootIsHex(env: Env, prefix: seq<Block>, b: Block, reward: u64)
    requires Structure(env, prefix, b, reward)
    ensures AllHex(b.header.merkleRoot) && AllHex(b.hash)
  {
    var ids := if env.version >= 2 then Ids(b.txs) else TxHashes(b.txs);
    if |ids| == 1 { assert TxValid(env, reward, b.txs[0]); }
    RootIsHex(env.crypto, ids);
  }

  lemma HexBlockIsLegible(b: Block)
    requires AllHex(b.header.previousHash) && AllHex(b.header.merkleRoot) && AllHex(b.hash)
    ensures Journal.Legible(b)
  {
    Journal.HexIsLegible(b.header.previousHash);
    Journal.HexIsLegible(b.header.merkleRoot);
    Journal.HexIsLegible(b.hash);
  }

  /** Validation settles everything the codec asks of a block, except the fields validation never reads. */
  lemma {:induction false} ValidatedIsNormal(env: Env, prefix: seq<Block>, b: Block)
    requires ValidEnv(env) && |prefix| > 0 && ValidChain(env, prefix + [b])
    ensures Journal.Normal(b) <==> forall i :: 0 <= i < |b.txs| ==> SpareFieldsEmpty(b.txs[i])
  {
    ValidStep(env, prefix, b);
    Equivalence.IncrementalIsFullValidation(env, prefix, b);
    var s := LedgerOf(env, prefix).value;
    Equivalence.Accepted(env, prefix, b, s);
    ValidatedIsLegible(env, prefix, b, SnapshotReward(env, s).value);
    forall i | 0 <= i < |b.txs|
      ensures Journal.NormalTx(b.txs[i]) <==> SpareFieldsEmpty(b.txs[i])
    {
      assert TxValid(env, SnapshotReward(env, s).value, b.txs[i]);
      ValidTxIsNormal(env, SnapshotReward(env, s).value, b.txs[i]);
    }
  }

  lemma GenesisRecordKeeps(env: Env, codec: Journal.Codec)
    requires ValidEnv(env) && Journal.Lawful(codec)
    ensures GrownDisk(env, codec, WithBlock(codec, Journal.EMPTY, Genesis(env.crypto)))
    ensures Stored(codec, WithBlock(codec, Journal.EMPTY, Genesis(env.crypto))) == InitialNode(env).blocks
  {
    Journal.GenesisIsNormal(env.crypto);
    StoredWithBlock(codec, Journal.EMPTY, Genesis(env.crypto));
    GenesisTree(env);
    assert Stored(codec, Journal.EMPTY) == map[];
  }

  lemma TipRecordKeeps(env: Env, codec: Journal.Codec, d: Journal.Disk, h: Text)
    requires GrownDisk(env, codec, d) && h in Stored(codec, d)
    ensures GrownDisk(env, codec, d.(tip := h)) && Stored(codec, d.(tip := h)) == Stored(codec, d)
  {
  }

  lemma CheckpointRecordKeeps(env: Env, codec: Journal.Codec, d: Journal.Disk, h: Text, s: State)
    requires GrownDisk(env, codec, d) && h in Stored(codec, d)
    requires LedgerOf(env, ChainOf(env.crypto, Stored(codec, d), h)) == Some(s) && FitsRecord(s)
    ensures var e := d.(checkpoints := d.checkpoints[h := Encode(env.crypto, s)]);
            GrownDisk(env, codec, e) && Stored(codec, e) == Stored(codec, d)
  {
    var t := Stored(codec, d);
    var cps := d.checkpoints[h := Encode(env.crypto, s)];
    forall k | k in cps
      ensures CheckpointOk(env, t, cps, k)
    {
      if k != h { assert CheckpointOk(env, t, d.checkpoints, k); }
    }
  }

  // ---- logs ----------------------------------------------------------------

  /** The image after `k` records, if it is good and keeps every block of the one before. */
  ghost function ImageAt(env: Env, codec: Journal.Codec, log: seq<Journal.Record>, k: nat): Option<Journal.Disk>
    requires k <= |log|
  {
    var d := Journal.Fold(codec, Journal.EMPTY, log[..k]);
    if d.Some? && DiskOk(env, codec, d.value) && (k > 0 ==> Grows(codec, Journal.Fold(codec, Journal.EMPTY, log[..k - 1]), d.value))
    then d else None
  }

  /** No block of the image before is lost or changed. */
  ghost predicate Grows(codec: Journal.Codec, e: Option<Journal.Disk>, d: Journal.Disk) {
    e.Some? && Extends(Stored(codec, e.value), Stored(codec, d))
  }

  /** Every record is readable, every prefix of the log leaves a good image, and no record loses or changes a block. */
  ghost predicate LogOk(env: Env, codec: Journal.Codec, log: seq<Journal.Record>) {
    && Journal.AllWellFormed(codec, log)
    && forall k {:trigger ImageAt(env, codec, log, k)} :: 0 <= k <= |log| ==> ImageAt(env, codec, log, k).Some?
  }

  lemma SamePrefix(env: Env, codec: Journal.Codec, log: seq<Journal.Record>, other: seq<Journal.Record>, k: nat)
    requires k <= |log| && k <= |other| && log[..k] == other[..k] && (k > 0 ==> log[..k - 1] == other[..k - 1])
    requires LogOk(env, codec, log)
    ensures ImageAt(env, codec, other, k).Some?
  {
    assert ImageAt(env, codec, log, k).Some?;
  }

  lemma LastPrefix(env: Env, codec: Journal.Codec, log: seq<Journal.Record>, e: Journal.Disk, d: Journal.Disk)
    requires |log| > 0 && Journal.Fold(codec, Journal.EMPTY, log[..|log| - 1]) == Some(e) && Grows(codec, Some(e), d)
    requires Journal.Fold(codec, Journal.EMPTY, log) == Some(d) && DiskOk(env, codec, d)
    ensures ImageAt(env, codec, log, |log|).Some?
  {
    WholeSlice(log);
  }

  lemma LogExtends(env: Env, codec: Journal.Codec, log: seq<Journal.Record>, longer: seq<Journal.Record>, e: Journal.Disk, d: Journal.Disk)
    requires LogOk(env, codec, log) && |longer| == |log| + 1 && longer[..|log|] == log
    requires Journal.AllWellFormed(codec, longer)
    requires Journal.Fold(codec, Journal.EMPTY, log) == Some(e) && Extends(Stored(codec, e), Stored(codec, d))
    requires Journal.Fold(codec, Journal.EMPTY, longer) == Some(d) && DiskOk(env, codec, d)
    ensures LogOk(env, codec, longer)
  {
    forall k | 0 <= k <= |longer|
      ensures ImageAt(env, codec, longer, k).Some?
    {
      if k == |longer| {
        LastPrefix(env, codec, longer, e, d);
      } else {
        TakesAgree(log, longer, k);
        SamePrefix(env, codec, log, longer, k);
      }
    }
  }

  lemma TakesAgree<T>(s: seq<T>, t: seq<T>, k: nat)
    requires |s| <= |t| && t[..|s|] == s && k <= |s|
    ensures t[..k] == s[..k] && (k > 0 ==> t[..k - 1] == s[..k - 1])
  {
  }

  lemma LogPrefix(env: Env, codec: Journal.Codec, log: seq<Journal.Record>, n: nat)
    requires LogOk(env, codec, log) && n <= |log|
    ensures LogOk(env, codec, log[..n])
  {
    forall k | 0 <= k <= n
      ensures ImageAt(env, codec, log[..n], k).Some?
    {
      assert log[..n][..k] == log[..k];
      if k > 0 { assert log[..n][..k - 1] == log[..k - 1]; }
      SamePrefix(env, codec, log, log[..n], k);
    }
  }

  lemma LogEnd(env: Env, codec: Journal.Codec, log: seq<Journal.Record>)
    requires LogOk(env, codec, log)
    ensures Journal.Fold(codec, Journal.EMPTY, log).Some? && DiskOk(env, codec, Journal.Fold(codec, Journal.EMPTY, log).value)
  {
    assert log[..|log|] == log;
    assert ImageAt(env, codec, log, |log|).Some?;
  }

  // ---- recovery ------------------------------------------------------------

  /** The tip a reopened chain trusts: the last recorded one, or genesis. */
  function TipOf(env: Env, tip: Text): Text {
    if tip == [] then Genesis(env.crypto).hash else tip
  }

  /** The node a journal image stands for; an empty image stands for a fresh chain. */
  ghost function NodeOf(env: Env, codec: Journal.Codec, d: Journal.Disk): Node
    requires DiskOk(env, codec, d)
  {
    if d == Journal.EMPTY then InitialNode(env)
    else Node(Stored(codec, d), ChainOf(env.crypto, Stored(codec, d), TipOf(env, d.tip)))
  }

  lemma NodeOfValid(env: Env, codec: Journal.Codec, d: Journal.Disk)
    requires ValidEnv(env) && DiskOk(env, codec, d)
    ensures ValidNode(env, NodeOf(env, codec, d))
    ensures d != Journal.EMPTY ==> TipHash(NodeOf(env, codec, d)) == TipOf(env, d.tip)
  {
    if d == Journal.EMPTY {
      InitialNodeValid(env);
    } else {
      NewTipIsValid(env, Stored(codec, d), TipOf(env, d.tip));
      ChainShape(env.crypto, Stored(codec, d), TipOf(env, d.tip));
      assert NodeOk(env.crypto, Stored(codec, d), TipOf(env, d.tip));
    }
  }
}
