/** Hash-gated assembly of pieces from blocks (swarm/piece_manager.rs). */
module PieceManagers {
  import opened Wrappers
  import opened Bytes
  import opened Peers
  import opened Torrents
  import Bitfields

  datatype Error =
    | InvalidBlockSize(expected: nat, actual: nat)
    | InvalidBlockIndex(index: nat)
    | InvalidPieceIndex(index: nat)
    | UnalignedBlockOffset(offset: nat)

  datatype BlockState = Missing | Received(data: bytes)

  datatype PieceState = Partial(blocks: seq<BlockState>, received: nat) | Complete

  datatype CompletedPiece = CompletedPiece(range: BlockRange, data: bytes)

  // ---- One piece, as a value ----

  function BlockCount(length: nat): nat { (length + (BLOCK_SIZE - 1)) / BLOCK_SIZE }

  function BlockLen(length: nat, k: nat): nat
    requires k < BlockCount(length)
  {
    if length - k * BLOCK_SIZE < BLOCK_SIZE then length - k * BLOCK_SIZE else BLOCK_SIZE
  }

  function CountReceived(blocks: seq<BlockState>): (n: nat)
    ensures n <= |blocks|
  {
    if blocks == [] then 0
    else CountReceived(blocks[..|blocks| - 1]) + if blocks[|blocks| - 1].Received? then 1 else 0
  }

  /** `buffer`: the received blocks one after the other. */
  function Joined(blocks: seq<BlockState>): bytes {
    if blocks == [] then []
    else Joined(blocks[..|blocks| - 1]) + match blocks[|blocks| - 1] case Received(data) => data case Missing => []
  }

  /** A partial piece has at least one block missing, and its received blocks have their exact length. */
  ghost predicate PieceOk(length: nat, st: PieceState) {
    st.Partial? ==>
      && |st.blocks| == BlockCount(length)
      && st.received == CountReceived(st.blocks) < |st.blocks|
      && forall k :: 0 <= k < |st.blocks| && st.blocks[k].Received? ==> |st.blocks[k].data| == BlockLen(length, k)
  }

  function NewPiece(length: nat): PieceState {
    Partial(seq(BlockCount(length), _ => Missing), 0)
  }

  /** Whether block `k` of the piece would be stored. */
  predicate Accepts(length: nat, st: PieceState, k: nat, data: bytes)
  {
    st.Partial? && k < |st.blocks| && k < BlockCount(length) && |data| == BlockLen(length, k) && st.blocks[k].Missing?
  }

  /** `Piece::receive_block` on a piece's state. */
  function StoreBlock(sha: bytes -> Hash, length: nat, expected: Hash, st: PieceState, k: nat, data: bytes)
      : (Result<Option<bytes>, Error>, PieceState)
    requires st.Partial? ==> |st.blocks| == BlockCount(length)
  {
    if st.Complete? then (Ok(None), st)
    else if k >= |st.blocks| then (Err(InvalidBlockIndex(k)), st)
    else if |data| != BlockLen(length, k) then (Err(InvalidBlockSize(BlockLen(length, k), |data|)), st)
    else if st.blocks[k].Received? then (Ok(None), st)
    else
      var blocks := st.blocks[k := Received(data)];
      if st.received + 1 != |blocks| then (Ok(None), Partial(blocks, st.received + 1))
      else if sha(Joined(blocks)) == expected then (Ok(Some(Joined(blocks))), Complete)
      else (Ok(None), NewPiece(length))
  }

  lemma {:induction false} CountAll(blocks: seq<BlockState>)
    ensures CountReceived(blocks) == |blocks| <==> forall k :: 0 <= k < |blocks| ==> blocks[k].Received?
  {
    if blocks != [] {
      var init := blocks[..|blocks| - 1];
      CountAll(init);
      if forall k :: 0 <= k < |init| ==> init[k].Received? {
        forall k | 0 <= k < |blocks| && blocks[|blocks| - 1].Received? ensures blocks[k].Received? {
          assert k < |init| ==> init[k] == blocks[k];
        }
      }
    }
  }

  lemma {:induction false} CountUpdate(blocks: seq<BlockState>, k: nat, data: bytes)
    requires k < |blocks| && blocks[k].Missing?
    ensures CountReceived(blocks[k := Received(data)]) == CountReceived(blocks) + 1
  {
    var n := |blocks| - 1;
    var updated := blocks[k := Received(data)];
    if k < n {
      CountUpdate(blocks[..n], k, data);
      assert updated[..n] == blocks[..n][k := Received(data)];
    } else {
      assert updated[..n] == blocks[..n];
    }
  }

  lemma {:induction false} CountMissing(n: nat)
    ensures CountReceived(seq(n, _ => Missing)) == 0
  {
    if n > 0 {
      var blocks: seq<BlockState> := seq(n, _ => Missing);
      assert blocks[..n - 1] == seq(n - 1, _ => Missing);
      CountMissing(n - 1);
    }
  }

  lemma BlockCountPositive(length: nat)
    requires length > 0
    ensures BlockCount(length) > 0 && (BlockCount(length) - 1) * BLOCK_SIZE < length <= BlockCount(length) * BLOCK_SIZE
  {
  }

  lemma NewPieceOk(length: nat)
    requires length > 0
    ensures PieceOk(length, NewPiece(length))
  {
    BlockCountPositive(length);
    CountMissing(BlockCount(length));
  }

  /** Offset in the piece where its first `n` blocks end. */
  function BlocksEnd(length: nat, n: nat): nat {
    if n * BLOCK_SIZE <= length then n * BLOCK_SIZE else length
  }

  lemma BlockInterval(length: nat, k: nat)
    requires k < BlockCount(length)
    ensures BlocksEnd(length, k) == k * BLOCK_SIZE < length
    ensures BlocksEnd(length, k + 1) == k * BLOCK_SIZE + BlockLen(length, k)
    ensures BlocksEnd(length, BlockCount(length)) == length && BlockLen(length, k) > 0
  {
  }

  function BlockSlice(content: bytes, k: nat): bytes
    requires k < BlockCount(|content|)
  {
    BlockInterval(|content|, k);
    content[k * BLOCK_SIZE..k * BLOCK_SIZE + BlockLen(|content|, k)]
  }

  /** Block `k` occupies `[k * BLOCK_SIZE, k * BLOCK_SIZE + BlockLen)` of the joined buffer. */
  lemma {:induction false} JoinedIs(blocks: seq<BlockState>, content: bytes)
    requires |blocks| <= BlockCount(|content|)
    requires forall k :: 0 <= k < |blocks| ==> blocks[k] == Received(BlockSlice(content, k))
    ensures Joined(blocks) == content[..BlocksEnd(|content|, |blocks|)]
  {
    if blocks != [] {
      var n := |blocks| - 1;
      JoinedIs(blocks[..n], content);
      BlockInterval(|content|, n);
      TakeMore(content, n * BLOCK_SIZE, BlockLen(|content|, n));
    }
  }

  lemma TakeMore(content: bytes, at: nat, len: nat)
    requires at + len <= |content|
    ensures content[..at] + content[at..at + len] == content[..at + len]
  {
  }

  lemma {:induction false} JoinedLength(length: nat, blocks: seq<BlockState>)
    requires |blocks| <= BlockCount(length)
    requires forall k :: 0 <= k < |blocks| ==> blocks[k].Received? && |blocks[k].data| == BlockLen(length, k)
    ensures |Joined(blocks)| == BlocksEnd(length, |blocks|)
  {
    if blocks != [] {
      JoinedLength(length, blocks[..|blocks| - 1]);
      BlockInterval(length, |blocks| - 1);
    }
  }

  /**
   * Receiving a block keeps the piece well-formed; it completes exactly when the last missing block
   * arrives and the whole buffer has the expected hash, and it then hands out that buffer.
   */
  lemma StoreBlockKeeps(sha: bytes -> Hash, length: nat, expected: Hash, st: PieceState, k: nat, data: bytes)
    requires length > 0 && PieceOk(length, st)
    ensures var (r, st') := StoreBlock(sha, length, expected, st, k, data);
      && PieceOk(length, st')
      && (r.Ok? && r.value.Some? <==> st.Partial? && st'.Complete?)
      && (r.Ok? && r.value.Some? ==> sha(r.value.value) == expected && |r.value.value| == length)
      && (st.Complete? ==> st' == st)
      && (!Accepts(length, st, k, data) ==> st' == st)
  {
    if Accepts(length, st, k, data) {
      var blocks := st.blocks[k := Received(data)];
      CountUpdate(st.blocks, k, data);
      CountAll(blocks);
      if st.received + 1 == |blocks| {
        JoinedLength(length, blocks);
        NewPieceOk(length);
        BlockCountPositive(length);
      }
    }
  }

  // ---- The piece object ----

  class Piece {
    const length: nat
    const expectedHash: Hash
    var state: PieceState

    constructor (expectedHash: Hash, length: nat)
      ensures this.length == length && this.expectedHash == expectedHash && state == NewPiece(length)
    {
      this.length := length;
      this.expectedHash := expectedHash;
      state := NewPiece(length);
    }

    method BlockLength(k: nat) returns (r: Result<nat, Error>)
      requires PieceOk(length, state)
      ensures r == if state.Complete? then Ok(0)
                   else if k < BlockCount(length) then Ok(BlockLen(length, k))
                   else Err(InvalidBlockIndex(k))
    {
      match state {
        case Complete => r := Ok(0);
        case Partial(blocks, _) =>
          if k >= |blocks| {
            return Err(InvalidBlockIndex(k));
          }
          var left := length - k * BLOCK_SIZE;
          r := Ok(if left < BLOCK_SIZE then left else BLOCK_SIZE);
      }
    }

    /** `buffer`: none until every block is there, then all of them in order. */
    method Buffer() returns (r: Option<bytes>)
      ensures r == if state.Partial? && state.received == |state.blocks| then Some(Joined(state.blocks)) else None
    {
      if state.Complete? || state.received != |state.blocks| {
        return None;
      }
      var blocks := state.blocks;
      var buffer: bytes := [];
      for i := 0 to |blocks|
        invariant buffer == Joined(blocks[..i])
      {
        match blocks[i] {
          case Received(data) => buffer := buffer + data;
          case Missing =>
        }
        assert blocks[..i + 1][..i] == blocks[..i];
      }
      assert blocks[..|blocks|] == blocks;
      return Some(buffer);
    }

    /** `reset`: every block of a partial piece is missing again. */
    method Reset()
      modifies this
      ensures state == if old(state).Complete? then Complete else Partial(seq(|old(state).blocks|, _ => Missing), 0)
    {
      if state.Partial? {
        for i := 0 to |state.blocks|
          invariant state.Partial? && |state.blocks| == |old(state).blocks|
          invariant forall j :: 0 <= j < i ==> state.blocks[j] == Missing
        {
          state := state.(blocks := state.blocks[i := Missing]);
        }
        state := state.(received := 0);
        assert state.blocks == seq(|old(state).blocks|, _ => Missing);
      }
    }

    method ReceiveBlock(sha: bytes -> Hash, k: nat, data: bytes) returns (r: Result<Option<bytes>, Error>)
      requires PieceOk(length, state)
      modifies this
      ensures (r, state) == StoreBlock(sha, length, expectedHash, old(state), k, data)
    {
      if state.Complete? {
        return Ok(None);
      }
      var expectedLength := BlockLength(k);
      if expectedLength.Err? {
        return Err(expectedLength.error);
      }
      if |data| != expectedLength.value {
        return Err(InvalidBlockSize(expectedLength.value, |data|));
      }
      if state.blocks[k].Received? {
        return Ok(None);
      }
      state := Partial(state.blocks[k := Received(data)], state.received + 1);
      var buffer := Buffer();
      if buffer == None {
        return Ok(None);
      }
      if sha(buffer.value) != expectedHash {
        Reset();
        return Ok(None);
      }
      state := Complete;
      return Ok(buffer);
    }
  }

  // ---- All pieces, as a value ----

  ghost predicate PiecesOk(m: Metainfo, states: seq<PieceState>): (ok: bool)
    ensures ok ==> |states| == |m.pieces|
  {
    |states| == |m.pieces| && forall i :: 0 <= i < |states| ==> PieceLen(m, i) > 0 && PieceOk(PieceLen(m, i), states[i])
  }

  function CompleteSet(states: seq<PieceState>): set<nat> {
    set i: nat | 0 <= i < |states| && states[i].Complete?
  }

  predicate AllComplete(states: seq<PieceState>) {
    forall i :: 0 <= i < |states| ==> states[i].Complete?
  }

  predicate NoneComplete(states: seq<PieceState>) {
    forall i :: 0 <= i < |states| ==> !states[i].Complete?
  }

  /** `needed_pieces`, from piece `from` on. */
  function Needed(states: seq<PieceState>, from: nat): seq<nat>
    requires from <= |states|
    decreases |states| - from
  {
    if from == |states| then []
    else (if states[from].Complete? then [] else [from]) + Needed(states, from + 1)
  }

  predicate IsPartial(states: seq<PieceState>, piece: nat) {
    piece < |states| && states[piece].Partial? && states[piece].received > 0
  }

  function BlockAt(length: nat, piece: nat, k: nat): BlockRange
    requires k < BlockCount(length)
  {
    BlockRange(piece, k * BLOCK_SIZE, BlockLen(length, k))
  }

  /** `unreceived_blocks` of one piece, from block `k` on. */
  function MissingFrom(length: nat, piece: nat, blocks: seq<BlockState>, k: nat): seq<BlockRange>
    requires |blocks| <= BlockCount(length) && k <= |blocks|
    decreases |blocks| - k
  {
    if k == |blocks| then []
    else (if blocks[k].Missing? then [BlockAt(length, piece, k)] else []) + MissingFrom(length, piece, blocks, k + 1)
  }

  function UnreceivedBlocks(m: Metainfo, states: seq<PieceState>, piece: nat): seq<BlockRange>
    requires PiecesOk(m, states)
  {
    if piece < |states| && states[piece].Partial? then
      MissingFrom(PieceLen(m, piece), piece, states[piece].blocks, 0)
    else []
  }

  /** An aligned block of a piece of this torrent, with its exact length. */
  ghost predicate RealBlock(m: Metainfo, b: BlockRange) {
    && b.pieceIndex < |m.pieces| && PieceLen(m, b.pieceIndex) > 0
    && b.pieceOffset % BLOCK_SIZE == 0
    && b.pieceOffset / BLOCK_SIZE < BlockCount(PieceLen(m, b.pieceIndex))
    && b == BlockAt(PieceLen(m, b.pieceIndex), b.pieceIndex, b.pieceOffset / BLOCK_SIZE)
  }

  ghost predicate IsMissing(m: Metainfo, states: seq<PieceState>, b: BlockRange) {
    && RealBlock(m, b) && b.pieceIndex < |states| && states[b.pieceIndex].Partial?
    && b.pieceOffset / BLOCK_SIZE < |states[b.pieceIndex].blocks|
    && states[b.pieceIndex].blocks[b.pieceOffset / BLOCK_SIZE].Missing?
  }

  lemma {:induction false} MissingFromIsListing(length: nat, piece: nat, blocks: seq<BlockState>, k: nat)
    requires |blocks| <= BlockCount(length) && k <= |blocks|
    ensures forall b :: b in MissingFrom(length, piece, blocks, k) <==>
      exists j :: k <= j < |blocks| && blocks[j].Missing? && b == BlockAt(length, piece, j)
    decreases |blocks| - k
  {
    if k < |blocks| {
      MissingFromIsListing(length, piece, blocks, k + 1);
    }
  }

  lemma BlockPlace(length: nat, piece: nat, k: nat)
    requires k < BlockCount(length)
    ensures var b := BlockAt(length, piece, k);
      b.pieceIndex == piece && b.pieceOffset / BLOCK_SIZE == k && b.pieceOffset % BLOCK_SIZE == 0
  {
  }

  lemma UnreceivedIsMissing(m: Metainfo, states: seq<PieceState>, piece: nat, b: BlockRange)
    requires PiecesOk(m, states) && b in UnreceivedBlocks(m, states, piece)
    ensures b.pieceIndex == piece && IsMissing(m, states, b)
  {
    var length, blocks := PieceLen(m, piece), states[piece].blocks;
    MissingFromIsListing(length, piece, blocks, 0);
    hide CountReceived, MissingFrom, TotalSize, PieceLen;
    var j :| 0 <= j < |blocks| && blocks[j].Missing? && b == BlockAt(length, piece, j);
    BlockPlace(length, piece, j);
  }

  lemma MissingIsUnreceived(m: Metainfo, states: seq<PieceState>, b: BlockRange)
    requires PiecesOk(m, states) && IsMissing(m, states, b)
    ensures b in UnreceivedBlocks(m, states, b.pieceIndex)
  {
    var length, blocks := PieceLen(m, b.pieceIndex), states[b.pieceIndex].blocks;
    MissingFromIsListing(length, b.pieceIndex, blocks, 0);
    hide CountReceived, MissingFrom, TotalSize, PieceLen;
    assert b == BlockAt(length, b.pieceIndex, b.pieceOffset / BLOCK_SIZE);
  }

  /** The blocks asked for are exactly the missing blocks of the piece. */
  lemma UnreceivedAreMissing(m: Metainfo, states: seq<PieceState>, piece: nat)
    requires PiecesOk(m, states)
    ensures forall b :: b in UnreceivedBlocks(m, states, piece) <==> b.pieceIndex == piece && IsMissing(m, states, b)
  {
    hide IsMissing, UnreceivedBlocks, PiecesOk;
    forall b ensures b in UnreceivedBlocks(m, states, piece) <==> b.pieceIndex == piece && IsMissing(m, states, b) {
      if b in UnreceivedBlocks(m, states, piece) {
        UnreceivedIsMissing(m, states, piece, b);
      }
      if b.pieceIndex == piece && IsMissing(m, states, b) {
        MissingIsUnreceived(m, states, b);
      }
    }
  }

  lemma UnreceivedOfPiece(m: Metainfo, states: seq<PieceState>, piece: nat)
    requires PiecesOk(m, states)
    ensures forall b :: b in UnreceivedBlocks(m, states, piece) ==> b.pieceIndex == piece
  {
    hide IsMissing, UnreceivedBlocks, PiecesOk;
    UnreceivedAreMissing(m, states, piece);
  }

  /** `PieceManager::receive_block`. */
  function ReceiveInto(sha: bytes -> Hash, m: Metainfo, states: seq<PieceState>, range: BlockRange, data: bytes)
      : (Result<Option<CompletedPiece>, Error>, seq<PieceState>)
    requires PiecesOk(m, states)
  {
    var i := range.pieceIndex;
    if |data| != range.len then (Err(InvalidBlockSize(range.len, |data|)), states)
    else if range.pieceOffset % BLOCK_SIZE != 0 then (Err(UnalignedBlockOffset(range.pieceOffset)), states)
    else if i >= |states| then (Err(InvalidPieceIndex(i)), states)
    else
      var (r, st) := StoreBlock(sha, PieceLen(m, i), m.pieces[i], states[i], range.pieceOffset / BLOCK_SIZE, data);
      match r
      case Err(e) => (Err(e), states[i := st])
      case Ok(None) => (Ok(None), states[i := st])
      case Ok(Some(buffer)) => (Ok(Some(CompletedPiece(BlockRange(i, 0, |buffer|), buffer))), states[i := st])
  }

  /**
   * Receiving touches at most the piece it names and never un-completes one. It reports a completed
   * piece exactly when that piece goes from partial to complete, and then with its whole range and a
   * buffer that has the expected hash.
   */
  lemma ReceiveIntoKeeps(sha: bytes -> Hash, m: Metainfo, states: seq<PieceState>, range: BlockRange, data: bytes)
    requires PiecesOk(m, states)
    ensures var (r, states') := ReceiveInto(sha, m, states, range, data);
      && PiecesOk(m, states')
      && (forall j :: 0 <= j < |states| && (j != range.pieceIndex || states[j].Complete?) ==> states'[j] == states[j])
      && (r.Ok? && r.value.Some? <==> CompleteSet(states') != CompleteSet(states))
      && (r.Ok? && r.value.Some? ==>
           var done := r.value.value; var i := range.pieceIndex;
           && i < |states| && i !in CompleteSet(states) && CompleteSet(states') == CompleteSet(states) + {i}
           && done.range == BlockRange(i, 0, PieceLen(m, i)) && |done.data| == PieceLen(m, i)
           && sha(done.data) == m.pieces[i])
  {
    var i := range.pieceIndex;
    if |data| == range.len && range.pieceOffset % BLOCK_SIZE == 0 && i < |states| {
      StoreBlockKeeps(sha, PieceLen(m, i), m.pieces[i], states[i], range.pieceOffset / BLOCK_SIZE, data);
      var (r, states') := ReceiveInto(sha, m, states, range, data);
      if r.Ok? && r.value.Some? {
        assert i in CompleteSet(states');
        assert CompleteSet(states') == CompleteSet(states) + {i};
      } else {
        assert CompleteSet(states') == CompleteSet(states);
      }
    }
  }

  // ---- Bytes available ----

  /** `available_bytes` over the first `k` pieces. */
  function AvailableBytes(m: Metainfo, states: seq<PieceState>, k: nat): int
    requires k <= |states| <= |m.pieces|
  {
    if k == 0 then 0
    else AvailableBytes(m, states, k - 1) + if states[k - 1].Complete? then PieceLen(m, k - 1) else 0
  }

  lemma {:induction false} AvailablePrefix(m: Metainfo, states: seq<PieceState>, k: nat)
    requires Coherent(m) && k <= |states| == |m.pieces|
    ensures var whole := if k == |m.pieces| then TotalSize(m) else PieceStart(m, k);
      && 0 <= AvailableBytes(m, states, k) <= whole
      && (AvailableBytes(m, states, k) == whole <==> forall i :: 0 <= i < k ==> states[i].Complete?)
  {
    if k > 0 {
      AvailablePrefix(m, states, k - 1);
      PieceInterval(m, k - 1);
    } else {
      assert PieceStart(m, 0) == 0;
    }
  }

  /** The completion test of the front end: all bytes are available exactly when every piece is complete. */
  lemma AvailableIffComplete(m: Metainfo, states: seq<PieceState>)
    requires Coherent(m) && |states| == |m.pieces|
    ensures AvailableBytes(m, states, |states|) <= TotalSize(m)
    ensures AvailableBytes(m, states, |states|) == TotalSize(m) <==> AllComplete(states)
  {
    AvailablePrefix(m, states, |states|);
  }

  /** `needed_pieces` lists the incomplete pieces in ascending order. */
  lemma {:induction false} NeededIsListing(states: seq<PieceState>, from: nat)
    requires from <= |states|
    ensures forall i :: i in Needed(states, from) <==> from <= i < |states| && !states[i].Complete?
    ensures forall i, j :: 0 <= i < j < |Needed(states, from)| ==> Needed(states, from)[i] < Needed(states, from)[j]
    decreases |states| - from
  {
    if from < |states| {
      NeededIsListing(states, from + 1);
      var later := Needed(states, from + 1);
      forall k | 0 <= k < |later| ensures from < later[k] {
        assert later[k] in later;
      }
    }
  }

  // ---- Filling a piece from local data (`on_local_piece`) ----

  /** The loop over the blocks that were missing: it stops at the first one outside the local data. */
  function FillLocal(sha: bytes -> Hash, m: Metainfo, states: seq<PieceState>, blocks: seq<BlockRange>, data: bytes)
      : (r: seq<PieceState>)
    requires PiecesOk(m, states)
    ensures PiecesOk(m, r)
    decreases |blocks|
  {
    if blocks == [] || blocks[0].pieceOffset + blocks[0].len > |data| then states
    else
      var b := blocks[0];
      var block := data[b.pieceOffset..b.pieceOffset + b.len];
      ReceiveIntoKeeps(sha, m, states, b, block);
      FillLocal(sha, m, ReceiveInto(sha, m, states, b, block).1, blocks[1..], data)
  }

  lemma {:induction false} FillLocalFrame(sha: bytes -> Hash, m: Metainfo, states: seq<PieceState>,
                                          blocks: seq<BlockRange>, data: bytes, i: nat)
    requires PiecesOk(m, states) && forall b :: b in blocks ==> b.pieceIndex == i
    ensures var states' := FillLocal(sha, m, states, blocks, data);
      forall j :: 0 <= j < |states| && (j != i || states[j].Complete?) ==> states'[j] == states[j]
    decreases |blocks|
  {
    if blocks != [] && blocks[0].pieceOffset + blocks[0].len <= |data| {
      var b := blocks[0];
      var block := data[b.pieceOffset..b.pieceOffset + b.len];
      ReceiveIntoKeeps(sha, m, states, b, block);
      FillLocalFrame(sha, m, ReceiveInto(sha, m, states, b, block).1, blocks[1..], data, i);
    }
  }

  /** The blocks of a piece once every missing one has been taken from `content`. */
  function Filled(blocks: seq<BlockState>, content: bytes): (r: seq<BlockState>)
    requires |blocks| <= BlockCount(|content|)
    ensures |r| == |blocks|
  {
    seq(|blocks|, k requires 0 <= k < |blocks| =>
      if blocks[k].Received? then blocks[k] else Received(BlockSlice(content, k)))
  }

  function Settled(sha: bytes -> Hash, length: nat, expected: Hash, blocks: seq<BlockState>): PieceState {
    if sha(Joined(blocks)) == expected then Complete else NewPiece(length)
  }

  lemma {:induction false} MissingFromFrame(length: nat, piece: nat, a: seq<BlockState>, b: seq<BlockState>, k: nat)
    requires |a| == |b| <= BlockCount(length) && k <= |a|
    requires forall j :: k <= j < |a| ==> a[j] == b[j]
    ensures MissingFrom(length, piece, a, k) == MissingFrom(length, piece, b, k)
    decreases |a| - k
  {
    if k < |a| {
      MissingFromFrame(length, piece, a, b, k + 1);
    }
  }

  function AfterOne(sha: bytes -> Hash, m: Metainfo, states: seq<PieceState>, i: nat, k: nat,
                    content: bytes): seq<PieceState>
    requires i < |states| && i < |m.pieces| && states[i].Partial? && k < |states[i].blocks| <= BlockCount(|content|)
  {
    var blocks := states[i].blocks[k := Received(BlockSlice(content, k))];
    states[i := if states[i].received + 1 != |blocks| then Partial(blocks, states[i].received + 1)
                else Settled(sha, |content|, m.pieces[i], blocks)]
  }

  /** What storing the next local block does: the piece goes on filling, or settles on its last block. */
  lemma FillOne(sha: bytes -> Hash, m: Metainfo, states: seq<PieceState>, i: nat, k: nat, content: bytes)
    requires PiecesOk(m, states) && i < |states| && states[i].Partial? && |content| == PieceLen(m, i)
    requires k < |states[i].blocks| && states[i].blocks[k].Missing?
    ensures ReceiveInto(sha, m, states, BlockAt(|content|, i, k), BlockSlice(content, k)).1
         == AfterOne(sha, m, states, i, k, content)
  {
    hide Joined, CountReceived, NewPiece, BlockCount;
    BlockInterval(|content|, k);
  }

  lemma SubSlice(data: bytes, content: bytes, lo: nat, hi: nat)
    requires lo <= hi <= |content| <= |data| && data[..|content|] == content
    ensures data[lo..hi] == content[lo..hi]
  {
    assert data[..|content|][lo..hi] == data[lo..hi];
  }

  lemma FillHead(sha: bytes -> Hash, m: Metainfo, states: seq<PieceState>, i: nat, k: nat, content: bytes, data: bytes)
    requires PiecesOk(m, states) && i < |states| && states[i].Partial? && k < |states[i].blocks|
    requires |content| == PieceLen(m, i) <= |data| && data[..|content|] == content && states[i].blocks[k].Missing?
    ensures PiecesOk(m, AfterOne(sha, m, states, i, k, content))
    ensures FillLocal(sha, m, states, MissingFrom(|content|, i, states[i].blocks, k), data)
         == FillLocal(sha, m, AfterOne(sha, m, states, i, k, content),
                      MissingFrom(|content|, i, states[i].blocks, k + 1), data)
  {
    var b, slice := BlockAt(|content|, i, k), BlockSlice(content, k);
    var rest := MissingFrom(|content|, i, states[i].blocks, k + 1);
    assert MissingFrom(|content|, i, states[i].blocks, k) == [b] + rest;
    hide MissingFrom, ReceiveInto, FillLocal, AfterOne;
    BlockInterval(|content|, k);
    assert data[b.pieceOffset..b.pieceOffset + b.len] == slice by {
      SubSlice(data, content, b.pieceOffset, b.pieceOffset + b.len);
    }
    FillOne(sha, m, states, i, k, content);
    FillStep(sha, m, states, b, rest, data);
  }

  lemma FillStep(sha: bytes -> Hash, m: Metainfo, states: seq<PieceState>, b: BlockRange, rest: seq<BlockRange>,
                 data: bytes)
    requires PiecesOk(m, states) && b.pieceOffset + b.len <= |data|
    ensures var states' := ReceiveInto(sha, m, states, b, data[b.pieceOffset..b.pieceOffset + b.len]).1;
      PiecesOk(m, states') && FillLocal(sha, m, states, [b] + rest, data) == FillLocal(sha, m, states', rest, data)
  {
    ReceiveIntoKeeps(sha, m, states, b, data[b.pieceOffset..b.pieceOffset + b.len]);
    assert ([b] + rest)[1..] == rest;
  }

  /**
   * Filling a partial piece from data that covers it ends in one of two states: complete if the blocks
   * already received together with the local ones hash to the expected digest, emptied otherwise.
   */
  lemma {:induction false} FillWhole(sha: bytes -> Hash, m: Metainfo, states: seq<PieceState>, i: nat, k: nat,
                                     content: bytes, data: bytes)
    requires PiecesOk(m, states) && i < |states| && states[i].Partial? && k <= |states[i].blocks|
    requires |content| == PieceLen(m, i) <= |data| && data[..|content|] == content
    requires forall j :: 0 <= j < k ==> states[i].blocks[j].Received?
    ensures FillLocal(sha, m, states, MissingFrom(|content|, i, states[i].blocks, k), data)[i]
         == Settled(sha, |content|, m.pieces[i], Filled(states[i].blocks, content))
    decreases |states[i].blocks| - k, 1
  {
    var blocks := states[i].blocks;
    assert k < |blocks| by { CountAll(blocks); }
    hide FillLocal, MissingFrom, Filled, Settled;
    if blocks[k].Received? {
      MissingFromStep(|content|, i, blocks, k);
      FillWhole(sha, m, states, i, k + 1, content, data);
    } else {
      FillHead(sha, m, states, i, k, content, data);
      FillRest(sha, m, states, i, k, content, data);
    }
  }

  lemma {:induction false} FillRest(sha: bytes -> Hash, m: Metainfo, states: seq<PieceState>, i: nat, k: nat,
                                    content: bytes, data: bytes)
    requires PiecesOk(m, states) && i < |states| && states[i].Partial? && k < |states[i].blocks|
    requires |content| == PieceLen(m, i) <= |data| && data[..|content|] == content
    requires (forall j :: 0 <= j < k ==> states[i].blocks[j].Received?) && states[i].blocks[k].Missing?
    requires PiecesOk(m, AfterOne(sha, m, states, i, k, content))
    ensures FillLocal(sha, m, AfterOne(sha, m, states, i, k, content),
                      MissingFrom(|content|, i, states[i].blocks, k + 1), data)[i]
         == Settled(sha, |content|, m.pieces[i], Filled(states[i].blocks, content))
    decreases |states[i].blocks| - k, 0
  {
    hide FillLocal, MissingFrom, Filled, Settled;
    var blocks := states[i].blocks;
    var blocks' := blocks[k := Received(BlockSlice(content, k))];
    assert MissingFrom(|content|, i, blocks, k + 1) == MissingFrom(|content|, i, blocks', k + 1) by {
      MissingFromFrame(|content|, i, blocks, blocks', k + 1);
    }
    if states[i].received + 1 == |blocks| {
      FillLast(blocks, k, i, content);
      FillNothing(sha, m, AfterOne(sha, m, states, i, k, content), data);
    } else {
      FillWhole(sha, m, AfterOne(sha, m, states, i, k, content), i, k + 1, content, data);
      FilledFrame(blocks, k, content);
    }
  }

  lemma MissingFromStep(length: nat, piece: nat, blocks: seq<BlockState>, k: nat)
    requires k < |blocks| <= BlockCount(length) && blocks[k].Received?
    ensures MissingFrom(length, piece, blocks, k) == MissingFrom(length, piece, blocks, k + 1)
  {
  }

  lemma FillNothing(sha: bytes -> Hash, m: Metainfo, states: seq<PieceState>, data: bytes)
    requires PiecesOk(m, states)
    ensures FillLocal(sha, m, states, [], data) == states
  {
  }

  lemma FilledFrame(blocks: seq<BlockState>, k: nat, content: bytes)
    requires k < |blocks| <= BlockCount(|content|) && blocks[k].Missing?
    ensures Filled(blocks[k := Received(BlockSlice(content, k))], content) == Filled(blocks, content)
  {
  }

  lemma FillLast(blocks: seq<BlockState>, k: nat, i: nat, content: bytes)
    requires k < |blocks| <= BlockCount(|content|) && blocks[k].Missing? && CountReceived(blocks) + 1 == |blocks|
    ensures var blocks' := blocks[k := Received(BlockSlice(content, k))];
      Filled(blocks, content) == blocks' && MissingFrom(|content|, i, blocks', k + 1) == []
  {
    var blocks' := blocks[k := Received(BlockSlice(content, k))];
    CountUpdate(blocks, k, BlockSlice(content, k));
    CountAll(blocks');
    forall j | 0 <= j < |blocks| ensures Filled(blocks, content)[j] == blocks'[j] {
      assert blocks'[j].Received?;
    }
    AllReceivedNoneMissing(|content|, i, blocks', k + 1);
  }

  lemma {:induction false} AllReceivedNoneMissing(length: nat, piece: nat, blocks: seq<BlockState>, k: nat)
    requires |blocks| <= BlockCount(length) && k <= |blocks|
    requires forall j :: 0 <= j < |blocks| ==> blocks[j].Received?
    ensures MissingFrom(length, piece, blocks, k) == []
    decreases |blocks| - k
  {
    if k < |blocks| {
      AllReceivedNoneMissing(length, piece, blocks, k + 1);
    }
  }

  /** Block `k` ends behind the first `n` bytes of the piece. */
  predicate Uncovered(length: nat, k: nat, n: nat) {
    k < BlockCount(length) && k * BLOCK_SIZE + BlockLen(length, k) > n
  }

  /** A missing block that the local data does not cover stays missing, so the piece stays partial. */
  lemma {:induction false} FillShort(sha: bytes -> Hash, m: Metainfo, states: seq<PieceState>,
                                     blocks: seq<BlockRange>, data: bytes, i: nat, k: nat)
    requires PiecesOk(m, states) && i < |states| && states[i].Partial? && k < |states[i].blocks|
    requires states[i].blocks[k].Missing? && Uncovered(PieceLen(m, i), k, |data|)
    requires forall b :: b in blocks ==> b.pieceIndex == i
    ensures !FillLocal(sha, m, states, blocks, data)[i].Complete?
    decreases |blocks|
  {
    if blocks != [] && blocks[0].pieceOffset + blocks[0].len <= |data| {
      var b := blocks[0];
      var block := data[b.pieceOffset..b.pieceOffset + b.len];
      ReceiveIntoKeeps(sha, m, states, b, block);
      StillMissing(sha, m, states, b, block, i, k);
      FillShort(sha, m, ReceiveInto(sha, m, states, b, block).1, blocks[1..], data, i, k);
    }
  }

  lemma StillMissing(sha: bytes -> Hash, m: Metainfo, states: seq<PieceState>, b: BlockRange, block: bytes, i: nat,
                     k: nat)
    requires PiecesOk(m, states) && i < |states| && states[i].Partial? && k < |states[i].blocks|
    requires states[i].blocks[k].Missing? && b.pieceIndex == i
    requires b.pieceOffset + |block| < k * BLOCK_SIZE + BlockLen(PieceLen(m, i), k)
    ensures var st := ReceiveInto(sha, m, states, b, block).1[i];
      st.Partial? && |st.blocks| == |states[i].blocks| && st.blocks[k].Missing?
  {
    var at := b.pieceOffset / BLOCK_SIZE;
    if Accepts(PieceLen(m, i), states[i], at, block) && b.pieceOffset % BLOCK_SIZE == 0 && |block| == b.len {
      assert at != k;
      var blocks := states[i].blocks[at := Received(block)];
      CountUpdate(states[i].blocks, at, block);
      CountAll(blocks);
      assert blocks[k].Missing?;
    }
  }

  lemma RestoreWhole(sha: bytes -> Hash, m: Metainfo, states: seq<PieceState>, i: nat, data: bytes)
    requires PiecesOk(m, states) && i < |states| && states[i] == NewPiece(PieceLen(m, i)) && |data| >= PieceLen(m, i)
    ensures FillLocal(sha, m, states, UnreceivedBlocks(m, states, i), data)[i].Complete?
      <==> sha(data[..PieceLen(m, i)]) == m.pieces[i]
  {
    var content := data[..PieceLen(m, i)];
    NewPieceBlocks(PieceLen(m, i));
    hide FillLocal, MissingFrom, Joined, Filled, BlockCount, NewPiece, CountReceived;
    FillWhole(sha, m, states, i, 0, content, data);
    JoinedContent(states[i].blocks, content);
  }

  lemma NewPieceBlocks(length: nat)
    requires length > 0
    ensures var st := NewPiece(length);
      st.Partial? && |st.blocks| == BlockCount(length) > 0 && forall k :: 0 <= k < |st.blocks| ==> st.blocks[k].Missing?
  {
    BlockCountPositive(length);
  }

  lemma JoinedContent(blocks: seq<BlockState>, content: bytes)
    requires |blocks| == BlockCount(|content|) > 0 && forall k :: 0 <= k < |blocks| ==> blocks[k].Missing?
    ensures Joined(Filled(blocks, content)) == content
  {
    JoinedIs(Filled(blocks, content), content);
    BlockInterval(|content|, 0);
    assert content[..|content|] == content;
  }

  lemma LastIsUncovered(length: nat, n: nat)
    requires n < length
    ensures BlockCount(length) > 0 && Uncovered(length, BlockCount(length) - 1, n)
  {
    BlockCountPositive(length);
    BlockInterval(length, BlockCount(length) - 1);
  }

  lemma PositiveLen(m: Metainfo, states: seq<PieceState>, i: nat)
    requires PiecesOk(m, states) && i < |states|
    ensures PieceLen(m, i) > 0
  {
  }

  lemma RestoreShort(sha: bytes -> Hash, m: Metainfo, states: seq<PieceState>, i: nat, data: bytes)
    requires PiecesOk(m, states) && i < |states| && states[i] == NewPiece(PieceLen(m, i)) && |data| < PieceLen(m, i)
    ensures !FillLocal(sha, m, states, UnreceivedBlocks(m, states, i), data)[i].Complete?
  {
    hide *;
    PositiveLen(m, states, i);
    var last := BlockCount(PieceLen(m, i)) - 1;
    NewPieceBlocks(PieceLen(m, i));
    LastIsUncovered(PieceLen(m, i), |data|);
    UnreceivedOfPiece(m, states, i);
    FillShort(sha, m, states, UnreceivedBlocks(m, states, i), data, i, last);
  }

  /** Restoring an untouched piece completes it exactly when the stored bytes have the expected hash. */
  lemma RestoreIsExact(sha: bytes -> Hash, m: Metainfo, states: seq<PieceState>, i: nat, data: bytes)
    requires PiecesOk(m, states) && i < |states| && states[i] == NewPiece(PieceLen(m, i))
    ensures FillLocal(sha, m, states, UnreceivedBlocks(m, states, i), data)[i].Complete?
      <==> |data| >= PieceLen(m, i) && sha(data[..PieceLen(m, i)]) == m.pieces[i]
  {
    hide FillLocal, UnreceivedBlocks;
    if |data| >= PieceLen(m, i) {
      RestoreWhole(sha, m, states, i, data);
    } else {
      RestoreShort(sha, m, states, i, data);
    }
  }

  // ---- The piece manager object ----

  class PieceManager {
    const metainfo: Metainfo
    const pieces: seq<Piece>
    const bitfield: Bitfields.Bitfield

    ghost predicate Valid()
      reads pieces, bitfield.data
      ensures Valid() ==> Coherent(metainfo) && PiecesOk(metainfo, States())
    {
      && Coherent(metainfo) && |pieces| == |metainfo.pieces|
      && (forall i, j :: 0 <= i < j < |pieces| ==> pieces[i] != pieces[j])
      && (forall i :: 0 <= i < |pieces| ==>
           pieces[i].length == PieceLen(metainfo, i) && pieces[i].expectedHash == metainfo.pieces[i])
      && PiecesOk(metainfo, States())
      && bitfield.Valid() && bitfield.pieces == |pieces|
      && bitfield.Set() == CompleteSet(States())
    }

    function States(): (r: seq<PieceState>)
      reads pieces
      ensures |r| == |pieces| && forall i :: 0 <= i < |pieces| ==> r[i] == pieces[i].state
    {
      seq(|pieces|, i requires 0 <= i < |pieces| reads pieces => pieces[i].state)
    }

    constructor (metainfo: Metainfo)
      requires Coherent(metainfo)
      ensures Valid() && this.metainfo == metainfo && fresh(pieces) && fresh(bitfield) && fresh(bitfield.data)
      ensures States() == seq(|metainfo.pieces|, i requires 0 <= i < |metainfo.pieces| => NewPieceOf(metainfo, i))
    {
      var made: seq<Piece> := [];
      for i := 0 to |metainfo.pieces|
        invariant |made| == i && fresh(made)
        invariant forall j, k :: 0 <= j < k < i ==> made[j] != made[k]
        invariant forall j :: 0 <= j < i ==> made[j].length == PieceLen(metainfo, j) > 0
        invariant forall j :: 0 <= j < i ==> made[j].expectedHash == metainfo.pieces[j]
        invariant forall j :: 0 <= j < i ==> made[j].state == NewPieceOf(metainfo, j)
      {
        PieceInterval(metainfo, i);
        var piece := new Piece(metainfo.pieces[i], PieceLen(metainfo, i));
        made := made + [piece];
      }
      this.metainfo := metainfo;
      pieces := made;
      bitfield := new Bitfields.Bitfield(|metainfo.pieces|);
      new;
      forall i | 0 <= i < |pieces| ensures PieceOk(PieceLen(metainfo, i), pieces[i].state) {
        NewPieceOk(PieceLen(metainfo, i));
      }
      assert CompleteSet(States()) == {};
    }

    method ReceiveBlock(sha: bytes -> Hash, range: BlockRange, data: bytes)
        returns (r: Result<Option<CompletedPiece>, Error>)
      requires Valid()
      modifies pieces, bitfield.data
      ensures Valid()
      ensures (r, States()) == ReceiveInto(sha, metainfo, old(States()), range, data)
    {
      ReceiveIntoKeeps(sha, metainfo, States(), range, data);
      if |data| != range.len {
        return Err(InvalidBlockSize(range.len, |data|));
      }
      if range.pieceOffset % BLOCK_SIZE != 0 {
        return Err(UnalignedBlockOffset(range.pieceOffset));
      }
      var i := range.pieceIndex;
      if i >= |pieces| {
        return Err(InvalidPieceIndex(i));
      }
      var buffer := pieces[i].ReceiveBlock(sha, range.pieceOffset / BLOCK_SIZE, data);
      assert States() == old(States())[i := pieces[i].state];
      match buffer {
        case Err(e) => return Err(e);
        case Ok(None) => return Ok(None);
        case Ok(Some(bytes)) =>
          var _ := bitfield.SetBit(i);
          return Ok(Some(CompletedPiece(BlockRange(i, 0, |bytes|), bytes)));
      }
    }
  }

  function NewPieceOf(m: Metainfo, i: nat): PieceState
    requires Coherent(m) && i < |m.pieces|
  {
    PieceInterval(m, i);
    NewPiece(PieceLen(m, i))
  }
}
