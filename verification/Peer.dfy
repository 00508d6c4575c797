/** Identities of remote peers (peer.rs) and block ranges (block.rs). */
module Peers {
  import opened Bytes

  type u16 = x: int | 0 <= x < U16_LIMIT

  type Octets16 = s: bytes | |s| == 16 witness seq(16, _ => 0)

  datatype SocketAddr =
    | V4(a: byte, b: byte, c: byte, d: byte, port: u16)
    | V6(octets: Octets16, port: u16)

  /** Twenty bytes, ordered lexicographically. */
  type PeerId = bytes

  datatype ConnectionDirection = Inbound | Outbound

  datatype PeerExtensions = PeerExtensions(dht: bool, fast: bool)

  const BLOCK_SIZE: nat := 16 * 1024

  /** `len` bytes of one piece. Requests we send start at multiples of the block size, those of others anywhere. */
  datatype BlockRange = BlockRange(pieceIndex: nat, pieceOffset: nat, len: nat)
}
