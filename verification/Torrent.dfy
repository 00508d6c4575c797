/** The torrent's geometry and the metadata it serves (torrent.rs). */
module Torrents {
  import opened Wrappers
  import opened Bytes

  /** Twenty-byte SHA-1 digests; the digest itself is a parameter of this model. */
  type Hash = h: bytes | |h| == 20 witness seq(20, _ => 0)

  /** A digest of twenty equal bytes, for examples. */
  function Digest(b: byte): Hash { seq(20, _ => b) }

  datatype Mode = Single(length: nat) | Multiple(lengths: seq<nat>)

  datatype Metainfo = Metainfo(pieceLength: nat, pieces: seq<Hash>, mode: Mode, infoBytes: bytes)

  datatype ValidationError = InvalidMetainfoSize | TorrentTooLarge

  const METADATA_PIECE_SIZE: nat := 16_384
  const MAX_TORRENT_SIZE: nat := 42_949_672_960

  function Sum(xs: seq<nat>): nat {
    if xs == [] then 0 else xs[0] + Sum(xs[1..])
  }

  function TotalSize(m: Metainfo): nat {
    match m.mode
    case Single(length) => length
    case Multiple(lengths) => Sum(lengths)
  }

  /** The last piece, and only the last one, may be short; sizes are `u64`. */
  ghost predicate Coherent(m: Metainfo) {
    && m.pieceLength > 0 && |m.pieces| >= 1
    && (|m.pieces| - 1) * m.pieceLength < TotalSize(m) <= |m.pieces| * m.pieceLength
    && TotalSize(m) < U64_LIMIT && m.pieceLength < U64_LIMIT
  }

  /** `Metainfo::validate`, with the comparisons of the source. */
  function Validate(m: Metainfo): Result<(), ValidationError> {
    if m.pieceLength * |m.pieces| <= TotalSize(m) then Err(InvalidMetainfoSize)
    else if TotalSize(m) > MAX_TORRENT_SIZE then Err(TorrentTooLarge)
    else Ok(())
  }

  /** A coherent torrent is accepted exactly when its last piece is short and it is small enough. */
  lemma CoherentAcceptedIff(m: Metainfo)
    requires Coherent(m)
    ensures Validate(m).Ok? <==> TotalSize(m) < |m.pieces| * m.pieceLength && TotalSize(m) <= 40 * 1024 * 1024 * 1024
  {
    assert m.pieceLength * |m.pieces| == |m.pieces| * m.pieceLength;
  }

  /** An accepted torrent is coherent exactly when it has no surplus hash. */
  lemma AcceptedCoherentIff(m: Metainfo)
    requires Validate(m).Ok? && m.pieceLength < U64_LIMIT
    ensures Coherent(m) <==> (|m.pieces| - 1) * m.pieceLength < TotalSize(m)
  {
    assert m.pieceLength * |m.pieces| == |m.pieces| * m.pieceLength;
    PositiveFactors(m.pieceLength, |m.pieces|);
  }

  lemma PositiveFactors(a: nat, b: nat)
    requires a * b > 0
    ensures a > 0 && b > 0
  {
  }

  /** Both deviations occur. */
  lemma ValidationDeviates()
    ensures exists full: Metainfo :: Coherent(full) && Validate(full).Err?
    ensures exists surplus: Metainfo :: !Coherent(surplus) && Validate(surplus).Ok?
  {
    var full := Metainfo(4, [Digest(0)], Single(4), []);
    assert Coherent(full) && Validate(full).Err?;
    var surplus := Metainfo(4, [Digest(0), Digest(0)], Single(3), []);
    assert !Coherent(surplus) && Validate(surplus).Ok?;
  }

  // ---- Pieces as intervals of the torrent ----

  function PieceStart(m: Metainfo, i: nat): nat { i * m.pieceLength }

  function PieceLen(m: Metainfo, i: nat): (len: int)
    requires i < |m.pieces|
  {
    if i == |m.pieces| - 1 then TotalSize(m) - i * m.pieceLength else m.pieceLength
  }

  lemma MulMonotone(a: nat, b: nat, c: nat)
    requires a <= b
    ensures a * c <= b * c
  {
  }

  /** Every piece is a non-empty interval inside the torrent that ends where the next one starts. */
  lemma PieceInterval(m: Metainfo, i: nat)
    requires Coherent(m) && i < |m.pieces|
    ensures 0 < PieceLen(m, i) <= m.pieceLength
    ensures PieceStart(m, i) + PieceLen(m, i) <= TotalSize(m)
    ensures PieceStart(m, i) + PieceLen(m, i) == if i == |m.pieces| - 1 then TotalSize(m) else PieceStart(m, i + 1)
  {
    var n, length := |m.pieces|, m.pieceLength;
    assert (n - 1) * length + length == n * length;
    assert i * length + length == (i + 1) * length;
    if i < n - 1 {
      MulMonotone(i + 1, n - 1, length);
    }
  }

  /** The intervals of different pieces do not meet. */
  lemma PiecesDisjoint(m: Metainfo, i: nat, j: nat)
    requires Coherent(m) && i < j < |m.pieces|
    ensures PieceStart(m, i) + PieceLen(m, i) <= PieceStart(m, j)
  {
    PieceInterval(m, i);
    MulMonotone(i + 1, j, m.pieceLength);
  }

  /** Every offset of the torrent lies in a piece. */
  lemma {:induction false} PiecesTile(m: Metainfo, offset: nat) returns (i: nat)
    requires Coherent(m) && offset < TotalSize(m)
    ensures i < |m.pieces| && PieceStart(m, i) <= offset < PieceStart(m, i) + PieceLen(m, i)
  {
    i := Locate(m, offset, |m.pieces|);
    PieceInterval(m, i);
  }

  lemma {:induction false} Locate(m: Metainfo, offset: nat, k: nat) returns (i: nat)
    requires Coherent(m) && 0 < k <= |m.pieces| && offset < TotalSize(m)
    requires k < |m.pieces| ==> offset < PieceStart(m, k)
    ensures i < k && PieceStart(m, i) <= offset
    ensures i < |m.pieces| - 1 ==> offset < PieceStart(m, i + 1)
  {
    if PieceStart(m, k - 1) <= offset {
      i := k - 1;
    } else {
      assert k > 1 by { assert PieceStart(m, 0) == 0; }
      i := Locate(m, offset, k - 1);
    }
  }

  // ---- Metadata blocks (BEP 9, server side) ----

  /** `info_bytes_block`; the product is a `usize` and wraps. */
  function InfoBytesBlock(m: Metainfo, piece: nat): bytes {
    MetadataBlock(m.infoBytes, piece)
  }

  function MetadataBlock(info: bytes, piece: nat): bytes {
    var start := piece * METADATA_PIECE_SIZE % U64_LIMIT;
    if start >= |info| then []
    else if start + METADATA_PIECE_SIZE <= |info| then info[start..start + METADATA_PIECE_SIZE]
    else info[start..]
  }
}
