/** Protocol constants, ledger data and the stateless transaction rules. */
module Protocol {
  import opened Base

  // ---- constants (pkg/protocol/constants.go) -------------------------------

  const MAX_SUPPLY: u64 := 72_000_000_000_000_000
  const BLOCK_REWARD: u64 := 5_000_000_000
  const GENESIS_TOTAL: u64 := 28_800_000_000_000_000
  const MINING_ALLOCATION: u64 := 43_200_000_000_000_000
  const TARGET_BLOCK_TIME: int := 30
  const DIFFICULTY_INTERVAL: nat := 10
  const FUTURE_STEP: int := 4 * TARGET_BLOCK_TIME
  const MTP_WINDOW: nat := 11
  const V3_FUTURE_BOUND: int := 300
  const CHECKPOINT_INTERVAL: int := 16
  const TIME_LIMIT: int := 0x8000_0000_0000_0000  // int64 seconds
  const GENESIS_TIMESTAMP: int := 1735689600

  const COINBASE_SENDER: Text := Ascii("SYJ-COINBASE-0000000000000000000000000000")
  const GENESIS_ALLOCATION_SENDER: Text := Ascii("SYJ-GENESIS-ALLOCATION-0000000000000000")
  const GENESIS_SENDER: Text := Ascii("SYJ-GENESIS-0000000000000000000000000000")
  const GENESIS_MESSAGE: Text := Ascii("SAYANJALI BLOCKCHAIN GENESIS BLOCK - SYJ TOKEN NETWORK")
  const ZERO_HASH: Text := seq(64, i => 48)

  // ---- hashes --------------------------------------------------------------

  /** A raw SHA-256 digest. */
  type Digest = d: Bytes | |d| == 32 witness seq(32, i => 0)

  function HexDigit(n: int): (c: byte)
    requires 0 <= n < 16
  {
    if n < 10 then 48 + n else 87 + n
  }

  predicate IsHexDigit(c: byte) {
    48 <= c <= 57 || 97 <= c <= 102 || 65 <= c <= 70
  }

  predicate AllHex(t: Text) {
    forall i :: 0 <= i < |t| ==> IsHexDigit(t[i])
  }

  predicate AllLowerHex(t: Text) {
    forall i :: 0 <= i < |t| ==> IsHexDigit(t[i]) && !(65 <= t[i] <= 70)
  }

  /** A digest printed as 64 hexadecimal characters. */
  type Hex64 = t: Text | |t| == 64 && AllHex(t) witness seq(64, i => 48)

  function Hex(d: Digest): (h: Hex64) {
    seq(64, i requires 0 <= i < 64 => HexDigit(if i % 2 == 0 then d[i / 2] / 16 else d[i / 2] % 16))
  }

  /** Two digests that print alike are equal. */
  lemma HexInjective(d: Digest, e: Digest)
    requires Hex(d) == Hex(e)
    ensures d == e
  {
    forall i | 0 <= i < 32
      ensures d[i] == e[i]
    {
      assert Hex(d)[2 * i] == Hex(e)[2 * i] && Hex(d)[2 * i + 1] == Hex(e)[2 * i + 1];
      assert HexDigit(d[i] / 16) == HexDigit(e[i] / 16) && HexDigit(d[i] % 16) == HexDigit(e[i] % 16);
    }
  }

  // ---- transactions and blocks ---------------------------------------------

  datatype Tx = Tx(
    version: nat, networkId: Text, nonce: u64, sender: Text, receiver: Text, amount: u64,
    timestamp: int, publicKey: Text, signature: Text, txHash: Text, txId: Text)

  datatype Header = Header(index: int, previousHash: Text, timestamp: int, nonce: u64, difficulty: int, merkleRoot: Text)

  datatype Block = Block(header: Header, txs: seq<Tx>, hash: Text)

  /** How far two chains agree hash by hash. */
  function CommonLength(a: seq<Block>, b: seq<Block>): (n: nat)
    ensures n <= |a| && n <= |b|
    decreases |a|
  {
    if a == [] || b == [] || a[0].hash != b[0].hash then 0 else 1 + CommonLength(a[1..], b[1..])
  }

  /** What a V1 transaction hash commits to, and what a V2 transaction id commits to. */
  datatype V1Payload = V1Payload(sender: Text, receiver: Text, amount: u64, timestamp: int, publicKey: Text, signature: Text)
  datatype V2Payload = V2Payload(amount: u64, networkId: Text, nonce: u64, receiver: Text, sender: Text, publicKey: Text, timestamp: int)

  function PayloadV1(tx: Tx): V1Payload {
    V1Payload(tx.sender, tx.receiver, tx.amount, tx.timestamp, tx.publicKey, tx.signature)
  }

  function PayloadV2(tx: Tx): V2Payload {
    V2Payload(tx.amount, tx.networkId, tx.nonce, tx.receiver, tx.sender, tx.publicKey, tx.timestamp)
  }

  /** SHA-256, the hashes over canonical JSON and ECDSA: arbitrary functions, so every theorem holds for any of them. */
  datatype Crypto = Crypto(
    sha: Bytes -> Digest,
    headerHash: Header -> Hex64,
    txHash: V1Payload -> Hex64,
    txId: V2Payload -> Hex64,
    addressOf: Text -> Text,
    signed: Tx -> bool)

  function Sha256Hex(c: Crypto, b: Bytes): Hex64 { Hex(c.sha(b)) }

  predicate ValidAddress(a: Text) {
    |a| == 43 && a[0] == 83 && a[1] == 89 && a[2] == 74 && forall i :: 3 <= i < 43 ==> IsHexDigit(a[i])
  }

  /** The reserved senders have '-' after the prefix, so no wallet owns them. */
  lemma ReservedSendersAreNoAddresses()
    ensures !ValidAddress(COINBASE_SENDER) && !ValidAddress(GENESIS_ALLOCATION_SENDER)
    ensures COINBASE_SENDER != GENESIS_ALLOCATION_SENDER
  {
    assert COINBASE_SENDER[3] == 45 && GENESIS_ALLOCATION_SENDER[3] == 45;
    assert COINBASE_SENDER[4] == 67 && GENESIS_ALLOCATION_SENDER[4] == 71;
    assert !IsHexDigit(COINBASE_SENDER[3]) && !IsHexDigit(GENESIS_ALLOCATION_SENDER[3]);
  }

  function IdentityHash(tx: Tx): Text {
    if tx.version == 2 then tx.txId else tx.txHash
  }

  /** A wallet's signature: key and signature are 64 bytes in hexadecimal, the sender derived from the key, and ECDSA. */
  predicate SignedByWallet(c: Crypto, tx: Tx) {
    && ValidAddress(tx.sender)
    && |tx.publicKey| == 128 && |tx.signature| == 128 && AllHex(tx.publicKey) && AllHex(tx.signature)
    && c.addressOf(tx.publicKey) == tx.sender
    && c.signed(tx)
  }

  /** `Transaction.Validate` with `Verify`; a blank sender is no valid address. */
  predicate ValidV1(c: Crypto, tx: Tx) {
    && 0 <= tx.timestamp < TIME_LIMIT
    && 0 < tx.amount <= MAX_SUPPLY
    && (tx.sender != COINBASE_SENDER ==> tx.sender != tx.receiver)
    && tx.version == 0
    && ValidAddress(tx.receiver)
    && tx.txHash == c.txHash(PayloadV1(tx))
    && (if tx.sender == COINBASE_SENDER then tx.publicKey == [] && tx.signature == [] else SignedByWallet(c, tx))
  }

  /** `Transaction.ValidateV2`. */
  predicate ValidV2(c: Crypto, networkId: Text, tx: Tx) {
    && tx.version == 2
    && networkId != [] && tx.networkId == networkId
    && 0 < tx.amount <= MAX_SUPPLY
    && 0 <= tx.timestamp <= TWO64
    && tx.sender != COINBASE_SENDER
    && ValidAddress(tx.receiver)
    && tx.sender != tx.receiver
    && SignedByWallet(c, tx)
    && tx.txId == c.txId(PayloadV2(tx))
  }

  /** `v2CoinbaseValid`. */
  predicate CoinbaseValidV2(c: Crypto, networkId: Text, reward: u64, tx: Tx) {
    && tx.version == 2
    && tx.sender == COINBASE_SENDER
    && tx.networkId == networkId
    && tx.publicKey == [] && tx.signature == []
    && tx.nonce == 0
    && tx.amount == reward
    && ValidAddress(tx.receiver)
    && tx.timestamp >= 0
    && tx.txId == c.txId(PayloadV2(tx))
  }

  // ---- economic genesis (internal/tokenomics/allocation.go) ----------------

  datatype Allocation = Allocation(category: Text, recipient: Text, amount: u64)
  datatype GenesisDoc = GenesisDoc(version: u64, sender: Text, allocations: seq<Allocation>, total: u64)

  function ExpectedAmount(category: Text): Option<u64> {
    if category == Ascii("presale") then Some(7_200_000_000_000_000)
    else if category == Ascii("treasury") then Some(5_760_000_000_000_000)
    else if category == Ascii("ecosystem") then Some(3_600_000_000_000_000)
    else if category == Ascii("liquidity") then Some(4_320_000_000_000_000)
    else if category == Ascii("team") then Some(7_920_000_000_000_000)
    else None
  }

  function AllocationTotal(xs: seq<Allocation>): nat {
    if xs == [] then 0 else AllocationTotal(xs[..|xs| - 1]) + xs[|xs| - 1].amount
  }

  predicate ValidGenesisDoc(g: GenesisDoc) {
    && g.version == 1
    && g.sender == GENESIS_ALLOCATION_SENDER
    && |g.allocations| == 5
    && (forall i :: 0 <= i < 5 ==> ExpectedAmount(g.allocations[i].category) == Some(g.allocations[i].amount))
    && (forall i, j :: 0 <= i < j < 5 ==> g.allocations[i].category != g.allocations[j].category)
    && (forall i :: 0 <= i < 5 ==> ValidAddress(g.allocations[i].recipient))
    && AllocationTotal(g.allocations) == GENESIS_TOTAL
    && g.total == GENESIS_TOTAL
  }

  // ---- the consensus environment -------------------------------------------

  /** Everything fixed when a chain is opened. */
  datatype Env = Env(version: nat, networkId: Text, genesis: Option<GenesisDoc>, crypto: Crypto)

  /** What the three `Open…WithGenesisState` constructors and `Open` establish. */
  predicate ValidEnv(env: Env) {
    && 1 <= env.version <= 3
    && (env.version >= 2 ==> env.genesis.Some? && |env.networkId| == 64 && AllLowerHex(env.networkId))
    && (env.genesis.Some? ==> ValidGenesisDoc(env.genesis.value))
  }

  function GenesisTx(c: Crypto): Tx {
    Tx(0, [], 0, GENESIS_SENDER, GENESIS_SENDER, 0, GENESIS_TIMESTAMP, [], [], Sha256Hex(c, GENESIS_MESSAGE), [])
  }

  /** The frozen genesis block: its Merkle root is its only transaction's hash. */
  function Genesis(c: Crypto): Block {
    var header := Header(0, ZERO_HASH, GENESIS_TIMESTAMP, 0, 0, Sha256Hex(c, GENESIS_MESSAGE));
    Block(header, [GenesisTx(c)], c.headerHash(header))
  }

  /** `block.ValidateGenesis`: neither the index nor the transactions are compared. */
  predicate MatchesGenesis(c: Crypto, b: Block) {
    var g := Genesis(c);
    && b.hash == g.hash
    && b.header.merkleRoot == g.header.merkleRoot
    && b.header.previousHash == g.header.previousHash
    && b.header.timestamp == g.header.timestamp
    && b.header.nonce == g.header.nonce
    && b.header.difficulty == g.header.difficulty
  }
}
