/** What stands in the way of a theorem that needs hashes to tell inputs apart: an explicit clash. */
module Clashes {
  import opened Base
  import opened Protocol

  /**
   * Two distinct inputs with one hash. `IdIsNode` and `HashIsNode` are clashes too: a transaction hash
   * is taken of a JSON text, an inner Merkle node of two hashes; so is `GenesisId`.
   */
  datatype Clash =
    | TxIds(a: V2Payload, b: V2Payload)
    | V1Hashes(u: V1Payload, v: V1Payload)
    | Headers(h: Header, k: Header)
    | Nodes(x: Bytes, y: Bytes)
    | IdIsNode(a: V2Payload, x: Bytes)
    | HashIsNode(u: V1Payload, x: Bytes)
    | GenesisId(a: V2Payload)

  predicate Real(c: Crypto, e: Clash) {
    match e
    case TxIds(a, b) => a != b && c.txId(a) == c.txId(b)
    case V1Hashes(u, v) => u != v && c.txHash(u) == c.txHash(v)
    case Headers(h, k) => h != k && c.headerHash(h) == c.headerHash(k)
    case Nodes(x, y) => x != y && c.sha(x) == c.sha(y)
    case IdIsNode(a, x) => |x| == 128 && c.txId(a) == Sha256Hex(c, x)
    case HashIsNode(u, x) => |x| == 128 && c.txHash(u) == Sha256Hex(c, x)
    case GenesisId(a) => c.txId(a) == Sha256Hex(c, GENESIS_MESSAGE)
  }
}
