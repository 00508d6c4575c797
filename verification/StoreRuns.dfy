/** The swarm together with the store it writes to and is fed from. */
module StoreRuns {
  import opened Wrappers
  import opened Bytes
  import opened Listings
  import opened Peers
  import opened Torrents
  import opened PieceManagers
  import opened Registries
  import opened SwarmEvents
  import opened Scheduling
  import opened SwarmSpec
  import opened SwarmInvariants
  import opened Runs
  import opened DiskStorages
  import M = Messages
  import X = ExtensionMessages

  // ---- What a step writes ----

  ghost predicate Quiet(outs: seq<Output>) {
    forall o :: o in outs ==> !o.WritePiece? && !o.Completed? && !o.Broadcast?
  }

  ghost function Finish(last: bool): seq<Output> { if last then [Completed] else [] }

  /** A piece has just been completed by its last block: it is announced, written, and perhaps ends the download. */
  ghost predicate Delivers(c: Config, s: State, outs: seq<Output>, s': State, i: nat, data: bytes, rest: seq<Output>)
    requires Ready(c, s)
  {
    && i < |s.pieces| == |s'.pieces| && !s.pieces[i].Complete? && CompleteSet(s'.pieces) == CompleteSet(s.pieces) + {i}
    && |data| == PieceLen(c.metainfo, i) && c.sha(data) == c.metainfo.pieces[i]
    && outs == [Broadcast(M.Have(i)), WritePiece(BlockRange(i, 0, |data|), data)]
               + Finish(AllComplete(s'.pieces)) + rest
    && Quiet(rest)
  }

  /** Nothing is written, and no piece changes between complete and incomplete. */
  ghost predicate Idle(s: State, outs: seq<Output>, s': State) {
    Quiet(outs) && |s'.pieces| == |s.pieces| && CompleteSet(s'.pieces) == CompleteSet(s.pieces)
  }

  lemma {:induction false} PlanIsQuiet(rs: seq<BlockRequest>)
    ensures Quiet(RequestOutputs(rs))
  {
    if rs != [] {
      PlanIsQuiet(rs[..|rs| - 1]);
    }
  }

  lemma PlannedIdle(c: Config, s: State, outs: seq<Output>, s': State)
    requires Planned(c, s, outs, s')
    ensures Quiet(outs) && s'.pieces == s.pieces
  {
    if s.status.Downloads() {
      var rs :| PlansWith(c, s, rs, outs, s');
      PlanIsQuiet(rs);
    }
  }

  lemma ExtensionQuiet(c: Config, s: State, addr: SocketAddr, extId: byte, payload: bytes, outs: seq<Output>)
    requires ExtensionOutputs(c, s, addr, extId, payload, outs)
    ensures Quiet(outs)
  {
    if extId == M.UT_PEX_EXT_ID && X.DecodePex(payload).Ok? {
      var order :| Listing(order, X.DecodePex(payload).value) && outs == Discovered(s, order);
      DiscoveryOnlyConnects(s.reg, order);
    }
  }

  lemma ConnectionIdle(c: Config, s: State, addr: SocketAddr, direction: ConnectionDirection, id: PeerId,
                       ext: PeerExtensions, outs: seq<Output>, s': State)
    requires OnConnected(c, s, addr, direction, id, ext, outs, s')
    ensures Idle(s, outs, s')
  {
    hide Quiet, AcceptOutputs, Judge, Cancels;
    match Judge(c.clientId, s.reg, direction, id)
    case Reject => assert Quiet(outs) by { RejectQuiet(addr, outs); }
    case Accept => AcceptQuiet(s.pieces, addr, ext, outs);
    case Replace(prev) => ReplaceQuiet(s.pending, Orphaned(s.pending, prev), prev, s.pieces, addr, ext, outs);
  }

  lemma RejectQuiet(addr: SocketAddr, outs: seq<Output>)
    requires outs == [DisconnectPeer(addr)]
    ensures Quiet(outs)
  {
  }

  lemma AcceptQuiet(pieces: seq<PieceState>, addr: SocketAddr, ext: PeerExtensions, outs: seq<Output>)
    requires AcceptOutputs(pieces, addr, ext, outs)
    ensures Quiet(outs)
  {
    assert outs == [outs[0], outs[1]];
  }

  lemma ReplaceQuiet(rs: Reads, which: set<BlockRange>, prev: SocketAddr, pieces: seq<PieceState>,
                     addr: SocketAddr, ext: PeerExtensions, outs: seq<Output>)
    requires |outs| >= 3 && Cancels(rs, which, outs[..|outs| - 3]) && outs[|outs| - 3] == DisconnectPeer(prev)
    requires AcceptOutputs(pieces, addr, ext, outs[|outs| - 2..])
    ensures Quiet(outs)
  {
    CancelsOnlyCancel(rs, which, outs[..|outs| - 3]);
    AcceptQuiet(pieces, addr, ext, outs[|outs| - 2..]);
    assert outs == outs[..|outs| - 3] + [outs[|outs| - 3]] + outs[|outs| - 2..];
  }

  /** A handler other than that of `Piece` is idle. */
  lemma HandlerIdle(c: Config, s: State, addr: SocketAddr, msg: M.Message, outs: seq<Output>)
    requires Ready(c, s) && MessageOutputs(c, s, addr, msg, outs) && !msg.Piece?
    ensures Quiet(outs) && AfterMessage(c, s, addr, msg).pieces == s.pieces
  {
    hide ExtensionOutputs, Ready, FateOf;
    match msg
    case Extension(extId, payload) => ExtensionQuiet(c, s, addr, extId, payload, outs);
    case _ =>
  }

  /** A received block either completes its piece or is idle. */
  lemma PieceDelivers(c: Config, s: State, addr: SocketAddr, range: BlockRange, data: bytes, outs: seq<Output>)
      returns (i: nat, content: bytes, rest: seq<Output>)
    requires Ready(c, s) && PieceOutputs(c, s, addr, range, data, outs)
    ensures var s' := AfterPiece(c, s, addr, range, data);
      |s'.pieces| == |s.pieces| && (Idle(s, outs, s') || Delivers(c, s, outs, s', i, content, rest))
  {
    i, content, rest := 0, [], [];
    ReceiveIntoKeeps(c.sha, c.metainfo, s.pieces, range, data);
    hide PiecesOk, ReceiveInto;
    var (r, pieces) := Receipt(c, s, addr, range, data);
    if r.Ok? && r.value.Some? {
      var done := r.value.value;
      i, content := range.pieceIndex, done.data;
      rest := CompletionParts(done, AllComplete(pieces), s.reg.seeders, outs);
      assert i !in CompleteSet(s.pieces);
    }
  }

  lemma CompletionParts(done: CompletedPiece, last: bool, seeders: set<SocketAddr>, outs: seq<Output>)
      returns (rest: seq<Output>)
    requires CompletionOutputs(done, last, seeders, outs)
    ensures Quiet(rest)
    ensures outs == [Broadcast(M.Have(done.range.pieceIndex)), WritePiece(done.range, done.data)] + Finish(last) + rest
  {
    rest := [];
    if last {
      rest := outs[3..];
      DisconnectsOnlyDisconnect(seeders, rest);
      assert outs == [outs[0], outs[1]] + [outs[2]] + rest;
    } else {
      assert outs == [outs[0], outs[1]] + [] + [];
    }
  }

  ghost predicate Delivering(c: Config, s: State, outs: seq<Output>, s': State)
    requires Ready(c, s)
  {
    exists i: nat, data: bytes, rest: seq<Output> :: Delivers(c, s, outs, s', i, data, rest)
  }

  lemma HandledKinds(c: Config, s: State, addr: SocketAddr, msg: M.Message, k: nat, outs: seq<Output>, s': State)
    requires Ready(c, s) && Handled(c, s, addr, msg, k, outs, s')
    ensures Idle(s, outs, s') || Delivering(c, s, outs, s')
  {
    hide MessageOutputs, AfterMessage, Planned, Ready, Delivers, Quiet;
    assert outs == outs[..k] + outs[k..];
    var mid := AfterMessage(c, s, addr, msg);
    if msg.AffectsScheduling() {
      PlannedIdle(c, mid, outs[k..], s');
    } else {
      assert Quiet(outs[k..]) by { NothingQuiet(outs[k..]); }
    }
    if msg.Piece? {
      PieceParts(c, s, addr, msg, outs[..k]);
      var i, data, rest := PieceDelivers(c, s, addr, msg.range, msg.data, outs[..k]);
      if Idle(s, outs[..k], mid) {
        QuietAppend(outs[..k], outs[k..]);
      } else {
        DeliversMore(c, s, outs[..k], mid, i, data, rest, outs[k..], s');
      }
    } else {
      HandlerIdle(c, s, addr, msg, outs[..k]);
      QuietAppend(outs[..k], outs[k..]);
    }
  }

  lemma NothingQuiet(outs: seq<Output>)
    requires outs == []
    ensures Quiet(outs)
  {
  }

  lemma PieceParts(c: Config, s: State, addr: SocketAddr, msg: M.Message, outs: seq<Output>)
    requires Ready(c, s) && msg.Piece? && MessageOutputs(c, s, addr, msg, outs)
    ensures PieceOutputs(c, s, addr, msg.range, msg.data, outs)
    ensures AfterMessage(c, s, addr, msg) == AfterPiece(c, s, addr, msg.range, msg.data)
  {
  }

  lemma QuietAppend(xs: seq<Output>, ys: seq<Output>)
    requires Quiet(xs) && Quiet(ys)
    ensures Quiet(xs + ys)
  {
  }

  lemma DeliversMore(c: Config, s: State, outs: seq<Output>, mid: State, i: nat, data: bytes, rest: seq<Output>,
                     more: seq<Output>, s': State)
    requires Ready(c, s) && Delivers(c, s, outs, mid, i, data, rest) && Quiet(more) && s'.pieces == mid.pieces
    ensures Delivers(c, s, outs + more, s', i, data, rest + more)
  {
    QuietAppend(rest, more);
    assert outs + more ==
      [Broadcast(M.Have(i)),
       WritePiece(BlockRange(i, 0, |data|), data)] + Finish(AllComplete(s'.pieces)) + (rest + more);
  }

  lemma MessageKinds(c: Config, s: State, addr: SocketAddr, msg: M.Message, outs: seq<Output>, s': State)
    requires Ready(c, s) && OnMessage(c, s, addr, msg, outs, s')
    ensures Idle(s, outs, s') || Delivering(c, s, outs, s')
  {
    hide Handled, Ready, Delivers;
    var applied := ApplyMessage(s.reg, |c.metainfo.pieces|, addr, msg);
    if applied.Ok? {
      var s1 := s.(reg := applied.value);
      SameReady(c, s, s1);
      var k: nat :| Handled(c, s1, addr, msg, k, outs, s');
      HandledKinds(c, s1, addr, msg, k, outs, s');
      if !Idle(s1, outs, s') {
        var i: nat, data: bytes, rest: seq<Output> :| Delivers(c, s1, outs, s', i, data, rest);
        SameDelivery(c, s, s1, outs, s', i, data, rest);
      }
    }
  }

  lemma SameDelivery(c: Config, s: State, s1: State, outs: seq<Output>, s': State, i: nat, data: bytes,
                     rest: seq<Output>)
    requires Ready(c, s) && Ready(c, s1) && s1.pieces == s.pieces && Delivers(c, s1, outs, s', i, data, rest)
    ensures Delivers(c, s, outs, s', i, data, rest)
  {
  }

  lemma DiscoveryQuiet(s: State, addrs: seq<SocketAddr>)
    ensures Quiet(Discovered(s, addrs))
  {
    DiscoveryOnlyConnects(s.reg, addrs);
  }

  lemma CancelsQuiet(rs: Reads, which: set<BlockRange>, outs: seq<Output>)
    requires Cancels(rs, which, outs)
    ensures Quiet(outs)
  {
    CancelsOnlyCancel(rs, which, outs);
  }

  lemma CompletedReadIdle(s: State, id: nat, range: BlockRange, data: bytes, outs: seq<Output>, s': State)
    requires OnReadCompleted(s, id, range, data, outs, s')
    ensures Quiet(outs) && s'.pieces == s.pieces
  {
    if outs != [] {
      SendsOnlySend(s.pending[range].peers * s.reg.peers.Keys, M.Piece(range, data), outs);
    }
  }

  lemma StatusIdle(s: State, status: SwarmStatus, outs: seq<Output>, s': State)
    requires OnSetStatus(s, status, outs, s')
    ensures Quiet(outs) && s'.pieces == s.pieces
  {
    if !status.Uploads() {
      CancelsOnlyCancel(s.pending, s.pending.Keys, outs);
    }
  }

  lemma PexQuiet(s: State, outs: seq<Output>)
    requires OnPexTick(s, outs)
    ensures Quiet(outs)
  {
    PexOnlyExtends(s, outs);
  }

  lemma OtherStepIdle(c: Config, s: State, input: Input, outs: seq<Output>, s': State)
    requires Ready(c, s) && Next(c, s, input, outs, s')
    requires !(input.PeerConnected? || input.MessageReceived? || input.LocalPiece? || input == OnTick(BlockTick))
    ensures Quiet(outs) && s'.pieces == s.pieces
  {
    hide Ready, Planned, OnPexTick, Cancels, Quiet, OnSetStatus, OnReadCompleted, Discovered;
    match input
    case PeersDiscovered(addrs) => DiscoveryQuiet(s, addrs);
    case PeerDisconnected(addr) => CancelsQuiet(s.pending, Orphaned(s.pending, addr), outs);
    case UploadReadCompleted(id, range, data) => CompletedReadIdle(s, id, range, data, outs, s');
    case SetStatus(status) => StatusIdle(s, status, outs, s');
    case OnTick(_) => PexQuiet(s, outs);
  }

  /** Every step but one fed from the store is idle or delivers one piece. */
  lemma StepKinds(c: Config, s: State, input: Input, outs: seq<Output>, s': State)
    requires Ready(c, s) && Next(c, s, input, outs, s') && !input.LocalPiece?
    ensures Idle(s, outs, s') || Delivering(c, s, outs, s')
  {
    hide Ready, OnConnected, OnMessage, Planned, Delivering, Quiet;
    match input
    case PeerConnected(id, direction, addr, ext) => ConnectionIdle(c, s, addr, direction, id, ext, outs, s');
    case MessageReceived(addr, msg) => MessageKinds(c, s, addr, msg, outs, s');
    case OnTick(BlockTick) => PlannedIdle(c, s, outs, s');
    case _ => OtherStepIdle(c, s, input, outs, s');
  }

  // ---- The store ----

  /** The store after the writes among the outputs; a write without an address fails and changes nothing. */
  ghost function StoreAfter(m: Metainfo, store: bytes, outs: seq<Output>): (r: bytes)
    ensures |r| == |store|
  {
    if outs == [] then store
    else
      var before := StoreAfter(m, store, outs[..|outs| - 1]);
      match outs[|outs| - 1]
      case WritePiece(range, data) =>
        if |data| == range.len && StorageOffset(m, range).Some? then
          Overlay(before, StorageOffset(m, range).value, data)
        else before
      case _ => before
  }

  /** The stored bytes of one piece. */
  function PieceBytes(m: Metainfo, store: bytes, i: nat): bytes
    requires Coherent(m) && i < |m.pieces|
  {
    PieceInterval(m, i);
    Clip(store, PieceStart(m, i), PieceLen(m, i))
  }

  lemma PieceBytesLength(m: Metainfo, store: bytes, i: nat)
    requires Coherent(m) && i < |m.pieces| && |store| == TotalSize(m)
    ensures |PieceBytes(m, store, i)| == PieceLen(m, i)
  {
    PieceInterval(m, i);
  }

  lemma {:induction false} StoreAppend(m: Metainfo, store: bytes, xs: seq<Output>, ys: seq<Output>)
    ensures StoreAfter(m, store, xs + ys) == StoreAfter(m, StoreAfter(m, store, xs), ys)
  {
    if ys == [] {
      assert xs + ys == xs;
    } else {
      assert (xs + ys)[..|xs + ys| - 1] == xs + ys[..|ys| - 1];
      StoreAppend(m, store, xs, ys[..|ys| - 1]);
    }
  }

  lemma {:induction false} QuietKeepsStore(m: Metainfo, store: bytes, outs: seq<Output>)
    requires Quiet(outs)
    ensures StoreAfter(m, store, outs) == store
  {
    if outs != [] {
      QuietKeepsStore(m, store, outs[..|outs| - 1]);
    }
  }

  /** Writing a whole piece always finds its address; it replaces that piece and no other. */
  lemma WritePieceChanges(m: Metainfo, store: bytes, i: nat, data: bytes)
    requires Coherent(m) && |store| == TotalSize(m) && i < |m.pieces| && |data| == PieceLen(m, i)
    ensures var store' := StoreAfter(m, store, [Broadcast(M.Have(i)), WritePiece(BlockRange(i, 0, |data|), data)]);
      && PieceBytes(m, store', i) == data
      && forall j :: 0 <= j < |m.pieces| && j != i ==> PieceBytes(m, store', j) == PieceBytes(m, store, j)
  {
    var range := BlockRange(i, 0, |data|);
    var outs := [Broadcast(M.Have(i)), WritePiece(range, data)];
    PieceInterval(m, i);
    StorageOffsetIff(m, range);
    assert outs[..1][..0] == [];
    assert StoreAfter(m, store, outs[..1]) == store;
    OverlayInRange(store, PieceStart(m, i), data);
    hide Overlay, Clip, StorageOffset, PieceLen, PieceStart, StoreAfter;
    forall j: nat | j < |m.pieces| && j != i
      ensures PieceBytes(m, Overlay(store, PieceStart(m, i), data), j) == PieceBytes(m, store, j) {
      PieceInterval(m, j);
      if j < i { PiecesDisjoint(m, j, i); } else { PiecesDisjoint(m, i, j); }
      OverlayElsewhere(store, PieceStart(m, i), data, PieceStart(m, j), PieceLen(m, j));
    }
    WriteStep(m, store, i, data);
  }

  lemma WriteStep(m: Metainfo, store: bytes, i: nat, data: bytes)
    requires StorageOffset(m, BlockRange(i, 0, |data|)) == Some(PieceStart(m, i))
    ensures StoreAfter(m, store, [Broadcast(M.Have(i)), WritePiece(BlockRange(i, 0, |data|), data)])
         == Overlay(store, PieceStart(m, i), data)
  {
    var outs := [Broadcast(M.Have(i)), WritePiece(BlockRange(i, 0, |data|), data)];
    assert outs[..1][..0] == [];
    assert StoreAfter(m, store, outs[..1]) == store;
  }

  // ---- Agreement ----

  /** Complete pieces are stored with their expected hash. */
  ghost predicate Verified(c: Config, s: State, store: bytes)
    requires Ready(c, s)
  {
    && |store| == TotalSize(c.metainfo)
    && forall i :: 0 <= i < |s.pieces| && s.pieces[i].Complete? ==>
      c.sha(PieceBytes(c.metainfo, store, i)) == c.metainfo.pieces[i]
  }

  /** The pieces of a store that a piece set leaves alone. */
  ghost predicate SameBytes(m: Metainfo, store: bytes, store': bytes, kept: set<nat>)
    requires Coherent(m)
  {
    |store'| == |store| && forall i :: i in kept && 0 <= i < |m.pieces| ==>
      PieceBytes(m, store', i) == PieceBytes(m, store, i)
  }

  /** A delivery stores exactly the delivered bytes and leaves every other piece alone. */
  lemma DeliveryWrites(c: Config, s: State, outs: seq<Output>, s': State, store: bytes, i: nat, data: bytes,
                       rest: seq<Output>)
    requires Ready(c, s) && Delivers(c, s, outs, s', i, data, rest) && |store| == TotalSize(c.metainfo)
    ensures var store' := StoreAfter(c.metainfo, store, outs);
      && PieceBytes(c.metainfo, store', i) == data
      && forall j :: 0 <= j < |c.metainfo.pieces| && j != i ==>
        PieceBytes(c.metainfo, store', j) == PieceBytes(c.metainfo, store, j)
  {
    var m := c.metainfo;
    var head := [Broadcast(M.Have(i)), WritePiece(BlockRange(i, 0, |data|), data)];
    var last := Finish(AllComplete(s'.pieces));
    hide StoreAfter, Quiet;
    WritePieceChanges(m, store, i, data);
    StoreAppend(m, store, head + last, rest);
    StoreAppend(m, store, head, last);
    FinishKeepsStore(m, StoreAfter(m, store, head), AllComplete(s'.pieces));
    QuietKeepsStore(m, StoreAfter(m, store, head + last), rest);
  }

  lemma FinishKeepsStore(m: Metainfo, store: bytes, last: bool)
    ensures StoreAfter(m, store, Finish(last)) == store
  {
    assert Finish(last) != [] ==> Finish(last)[..0] == [];
  }

  /** What is stored of a piece agrees with its state: the blocks received, or the hash once complete. */
  ghost predicate Agrees(sha: bytes -> Hash, content: bytes, expected: Hash, st: PieceState) {
    match st
    case Complete => sha(content) == expected
    case Partial(blocks, _) =>
      |blocks| == BlockCount(|content|)
      && forall k :: 0 <= k < |blocks| && blocks[k].Received? ==> blocks[k].data == BlockSlice(content, k)
  }

  lemma StoreBlockAgrees(sha: bytes -> Hash, length: nat, expected: Hash, st: PieceState, k: nat, content: bytes)
    requires |content| == length > 0 && PieceOk(length, st) && Agrees(sha, content, expected, st)
    requires k < BlockCount(length)
    ensures Agrees(sha, content, expected, StoreBlock(sha, length, expected, st, k, BlockSlice(content, k)).1)
  {
    var data := BlockSlice(content, k);
    if Accepts(length, st, k, data) {
      var blocks := st.blocks[k := Received(data)];
      if st.received + 1 == |blocks| {
        CountUpdate(st.blocks, k, data);
        CountAll(blocks);
        JoinedIs(blocks, content);
        BlockInterval(length, k);
        assert content[..|content|] == content;
      }
    }
  }

  /** Local data of a piece is a prefix of what the store holds for it. */
  lemma {:induction false} FillAgrees(c: Config, states: seq<PieceState>, blocks: seq<BlockRange>, i: nat,
                                      content: bytes, data: bytes)
    requires PiecesOk(c.metainfo, states) && i < |states| && |content| == PieceLen(c.metainfo, i)
    requires |data| <= |content| && data == content[..|data|]
    requires forall b :: b in blocks ==> b.pieceIndex == i && RealBlock(c.metainfo, b)
    requires Agrees(c.sha, content, c.metainfo.pieces[i], states[i])
    ensures Agrees(c.sha, content, c.metainfo.pieces[i], FillLocal(c.sha, c.metainfo, states, blocks, data)[i])
    decreases |blocks|
  {
    if blocks != [] && blocks[0].pieceOffset + blocks[0].len <= |data| {
      var b := blocks[0];
      var block := data[b.pieceOffset..b.pieceOffset + b.len];
      var states' := ReceiveInto(c.sha, c.metainfo, states, b, block).1;
      hide Agrees, ReceiveInto, RealBlock, FillLocal;
      LocalBlockAgrees(c, states, b, i, content, data);
      assert blocks == [b] + blocks[1..];
      FillStep(c.sha, c.metainfo, states, b, blocks[1..], data);
      ReceiveIntoKeeps(c.sha, c.metainfo, states, b, block);
      hide PiecesOk;
      FillAgrees(c, states', blocks[1..], i, content, data);
    }
  }

  lemma LocalBlockAgrees(c: Config, states: seq<PieceState>, b: BlockRange, i: nat, content: bytes, data: bytes)
    requires PiecesOk(c.metainfo, states) && i < |states| && |content| == PieceLen(c.metainfo, i)
    requires |data| <= |content| && data == content[..|data|] && b.pieceOffset + b.len <= |data|
    requires b.pieceIndex == i && RealBlock(c.metainfo, b)
    requires Agrees(c.sha, content, c.metainfo.pieces[i], states[i])
    ensures Agrees(c.sha, content, c.metainfo.pieces[i],
      ReceiveInto(c.sha, c.metainfo, states, b, data[b.pieceOffset..b.pieceOffset + b.len]).1[i])
  {
    var k := b.pieceOffset / BLOCK_SIZE;
    BlockInterval(|content|, k);
    assert b == BlockAt(|content|, i, k);
    assert data[b.pieceOffset..b.pieceOffset + b.len] == BlockSlice(content, k) by {
      assert data[b.pieceOffset..b.pieceOffset + b.len] == content[b.pieceOffset..b.pieceOffset + b.len];
    }
    hide BlockSlice, Agrees;
    StoreBlockAgrees(c.sha, |content|, c.metainfo.pieces[i], states[i], k, content);
  }

  /**
   * What the environment owes the swarm: local data is read from the store, and only for pieces whose
   * received blocks, if any, agree with the store; completed reads return what the store holds.
   */
  ghost predicate FromStore(c: Config, s: State, store: bytes, input: Input)
    requires Ready(c, s)
  {
    match input
    case LocalPiece(i, data) =>
      i < |s.pieces| && s.pieces[i].Partial? ==>
        && |data| <= |PieceBytes(c.metainfo, store, i)| && data == PieceBytes(c.metainfo, store, i)[..|data|]
        && Agrees(c.sha, PieceBytes(c.metainfo, store, i), c.metainfo.pieces[i], s.pieces[i])
    case UploadReadCompleted(id, range, data) =>
      range in s.pending && s.pending[range].readId == id ==>
        && StorageOffset(c.metainfo, range).Some?
        && data == Clip(store, StorageOffset(c.metainfo, range).value, range.len)
    case _ => true
  }

  lemma LocalVerified(c: Config, s: State, store: bytes, i: nat, data: bytes)
    requires Ready(c, s) && Verified(c, s, store) && FromStore(c, s, store, LocalPiece(i, data))
    ensures Ready(c, AfterLocal(c, s, i, data)) && Verified(c, AfterLocal(c, s, i, data), store)
  {
    UnreceivedAreMissing(c.metainfo, s.pieces, i);
    var blocks := UnreceivedBlocks(c.metainfo, s.pieces, i);
    hide FillLocal, UnreceivedBlocks, PiecesOk;
    FillLocalFrame(c.sha, c.metainfo, s.pieces, blocks, data, i);
    if i < |s.pieces| && s.pieces[i].Partial? {
      PieceBytesLength(c.metainfo, store, i);
      FillAgrees(c, s.pieces, blocks, i, PieceBytes(c.metainfo, store, i), data);
    }
  }

  /** One step keeps the store in agreement, and never touches the bytes of a complete piece. */
  lemma StepVerified(c: Config, s: State, input: Input, outs: seq<Output>, s': State, store: bytes)
    requires Ready(c, s) && Ready(c, s') && Next(c, s, input, outs, s')
    requires Verified(c, s, store) && FromStore(c, s, store, input)
    ensures Verified(c, s', StoreAfter(c.metainfo, store, outs))
    ensures SameBytes(c.metainfo, store, StoreAfter(c.metainfo, store, outs), CompleteSet(s.pieces))
  {
    hide PieceBytes, StoreAfter, PiecesOk, FillLocal, UnreceivedBlocks, Quiet, Delivers;
    if input.LocalPiece? {
      LocalVerified(c, s, store, input.piece, input.data);
      assert outs == [];
      NothingStored(c.metainfo, store);
    } else {
      hide FromStore;
      StepKinds(c, s, input, outs, s');
      hide Next;
      if Idle(s, outs, s') {
        QuietKeepsStore(c.metainfo, store, outs);
        IdleVerified(c, s, s', store);
      } else {
        var i: nat, data: bytes, rest: seq<Output> :| Delivers(c, s, outs, s', i, data, rest);
        DeliveryVerified(c, s, outs, s', store, i, data, rest);
      }
    }
  }

  lemma NothingStored(m: Metainfo, store: bytes)
    ensures StoreAfter(m, store, []) == store
  {
  }

  lemma IdleVerified(c: Config, s: State, s': State, store: bytes)
    requires Ready(c, s) && Ready(c, s') && Verified(c, s, store) && CompleteSet(s'.pieces) == CompleteSet(s.pieces)
    ensures Verified(c, s', store)
  {
    hide PieceBytes, PiecesOk;
    forall i | 0 <= i < |s'.pieces| && s'.pieces[i].Complete? ensures s.pieces[i].Complete? {
      assert i in CompleteSet(s'.pieces);
    }
  }

  lemma DeliveryVerified(c: Config, s: State, outs: seq<Output>, s': State, store: bytes, i: nat, data: bytes,
                         rest: seq<Output>)
    requires Ready(c, s) && Ready(c, s') && Verified(c, s, store) && Delivers(c, s, outs, s', i, data, rest)
    ensures Verified(c, s', StoreAfter(c.metainfo, store, outs))
    ensures SameBytes(c.metainfo, store, StoreAfter(c.metainfo, store, outs), CompleteSet(s.pieces))
  {
    DeliveryWrites(c, s, outs, s', store, i, data, rest);
    hide PieceBytes, PiecesOk, StoreAfter, Quiet;
    forall j | 0 <= j < |s'.pieces| && s'.pieces[j].Complete? && j != i ensures s.pieces[j].Complete? {
      assert j in CompleteSet(s'.pieces);
    }
    assert i !in CompleteSet(s.pieces);
  }

  // ---- Runs with a store ----

  ghost function StoreOf(m: Metainfo, store: bytes, tr: Trace): (r: bytes)
    ensures |r| == |store|
  {
    if tr == [] then store else StoreAfter(m, StoreOf(m, store, Init(tr)), tr[|tr| - 1].outs)
  }

  /** A run from a fresh swarm over a store of any content, fed from that store. */
  ghost predicate StoredRun(c: Config, init: State, store: bytes, tr: Trace) {
    && Run(c, init, tr) && |store| == TotalSize(c.metainfo)
    && (tr != [] ==>
         && StoredRun(c, init, store, Init(tr))
         && FromStore(c, Last(init, Init(tr)), StoreOf(c.metainfo, store, Init(tr)), tr[|tr| - 1].input))
  }

  /** In every such run each complete piece is stored with its expected hash. */
  lemma {:induction false} StoreAgreement(c: Config, init: State, store: bytes, tr: Trace)
    requires StoredRun(c, init, store, tr)
    ensures Ready(c, Last(init, tr)) && Verified(c, Last(init, tr), StoreOf(c.metainfo, store, tr))
  {
    RunInv(c, init, tr);
    hide Inv, Next, StoreAfter, Verified, FromStore, Ready;
    if tr == [] {
      InitVerified(c, init, store);
    } else {
      var step, before := tr[|tr| - 1], Last(init, Init(tr));
      StoreAgreement(c, init, store, Init(tr));
      StepVerified(c, before, step.input, step.outs, step.after, StoreOf(c.metainfo, store, Init(tr)));
    }
  }

  lemma InitVerified(c: Config, init: State, store: bytes)
    requires IsInit(c, init) && |store| == TotalSize(c.metainfo) && Ready(c, init)
    ensures Verified(c, init, store)
  {
    hide PieceBytes;
  }

  /** The bytes of a complete piece never change again. */
  lemma {:induction false} CompleteBytesStay(c: Config, init: State, store: bytes, tr: Trace, k: nat, i: nat)
    requires StoredRun(c, init, store, tr) && k <= |tr| && i < |c.metainfo.pieces| && Coherent(c.metainfo)
    requires i in CompleteSet(Last(init, tr[..k]).pieces)
    ensures i in CompleteSet(Last(init, tr).pieces)
    ensures PieceBytes(c.metainfo, StoreOf(c.metainfo, store, tr), i)
         == PieceBytes(c.metainfo, StoreOf(c.metainfo, store, tr[..k]), i)
    decreases |tr|
  {
    if k == |tr| {
      assert tr[..k] == tr;
    } else {
      var step, before := tr[|tr| - 1], Last(init, Init(tr));
      assert Init(tr)[..k] == tr[..k];
      hide Inv, Next, StoreAfter, Verified, FromStore, PieceBytes, CompleteSet;
      CompleteBytesStay(c, init, store, Init(tr), k, i);
      StoreAgreement(c, init, store, Init(tr));
      RunInv(c, init, tr);
      StepVerified(c, before, step.input, step.outs, step.after, StoreOf(c.metainfo, store, Init(tr)));
      CompleteGrows(c, before, step.input, step.outs, step.after, i);
    }
  }

  /** Pieces never become incomplete again. */
  lemma CompleteGrows(c: Config, s: State, input: Input, outs: seq<Output>, s': State, i: nat)
    requires Ready(c, s) && Next(c, s, input, outs, s') && i in CompleteSet(s.pieces)
    ensures i in CompleteSet(s'.pieces)
  {
    hide PiecesOk, FillLocal, UnreceivedBlocks;
    if input.LocalPiece? {
      UnreceivedAreMissing(c.metainfo, s.pieces, input.piece);
      FillLocalFrame(c.sha, c.metainfo, s.pieces, UnreceivedBlocks(c.metainfo, s.pieces, input.piece), input.data,
                     input.piece);
    } else {
      StepKinds(c, s, input, outs, s');
    }
  }

  lemma ClipOfClip(store: bytes, start: nat, len: nat, offset: nat, n: nat)
    requires start + len <= |store| && offset + n <= len
    ensures |Clip(store, start, len)| == len
    ensures Clip(store, start + offset, n) == Clip(store, start, len)[offset..offset + n]
  {
  }

  /** A sub-range of a piece read from the store is the same sub-range of the piece's bytes. */
  lemma ReadIsPartOfPiece(m: Metainfo, store: bytes, range: BlockRange)
    requires Coherent(m) && |store| == TotalSize(m) && StorageOffset(m, range).Some?
    ensures range.pieceIndex < |m.pieces|
    ensures range.pieceOffset + range.len <= |PieceBytes(m, store, range.pieceIndex)|
    ensures Clip(store, StorageOffset(m, range).value, range.len)
         == PieceBytes(m, store, range.pieceIndex)[range.pieceOffset..range.pieceOffset + range.len]
  {
    StorageOffsetIff(m, range);
    PieceInterval(m, range.pieceIndex);
    hide Clip, StorageOffset, PieceStart, PieceLen;
    ClipOfClip(store, PieceStart(m, range.pieceIndex), PieceLen(m, range.pieceIndex), range.pieceOffset, range.len);
  }

  /** The message carries bytes of a complete piece that is stored with its expected hash. */
  ghost predicate VerifiedUpload(c: Config, s: State, store: bytes, range: BlockRange, data: bytes)
    requires Coherent(c.metainfo)
  {
    && range.pieceIndex < |c.metainfo.pieces| && range.pieceIndex in CompleteSet(s.pieces)
    && c.sha(PieceBytes(c.metainfo, store, range.pieceIndex)) == c.metainfo.pieces[range.pieceIndex]
    && range.pieceOffset + range.len <= |PieceBytes(c.metainfo, store, range.pieceIndex)|
    && data == PieceBytes(c.metainfo, store, range.pieceIndex)[range.pieceOffset..range.pieceOffset + range.len]
  }

  lemma ReadIsVerified(c: Config, s: State, store: bytes, range: BlockRange, data: bytes)
    requires Ready(c, s) && Verified(c, s, store) && range.pieceIndex in CompleteSet(s.pieces)
    requires StorageOffset(c.metainfo, range).Some?
    requires data == Clip(store, StorageOffset(c.metainfo, range).value, range.len)
    ensures VerifiedUpload(c, s, store, range, data)
  {
    hide Clip, StorageOffset, PieceBytes, PiecesOk;
    ReadIsPartOfPiece(c.metainfo, store, range);
  }

  lemma StepUploads(c: Config, s: State, input: Input, outs: seq<Output>, s': State, store: bytes, o: Output)
    requires Inv(c, s) && Next(c, s, input, outs, s') && Verified(c, s, store) && FromStore(c, s, store, input)
    requires o in outs && o.SendToPeer? && o.message.Piece?
    ensures s'.pieces == s.pieces && StoreAfter(c.metainfo, store, outs) == store
    ensures VerifiedUpload(c, s, store, o.message.range, o.message.data)
  {
    hide Inv, Ready, Verified, StoreAfter, VerifiedUpload, Quiet, OnReadCompleted;
    if input.UploadReadCompleted? {
      CompletedReadIdle(s, input.readId, input.range, input.data, outs, s');
      QuietKeepsStore(c.metainfo, store, outs);
      CompletionIsRead(c, s, input, outs, s', o);
      ReadIsVerified(c, s, store, input.range, input.data);
    } else {
      hide Next, FromStore;
      UploadsFollowReads(c, s, input, outs, s');
    }
  }

  /** Every byte ever uploaded is a byte of a piece that has its expected hash. */
  lemma UploadsAreVerified(c: Config, init: State, store: bytes, tr: Trace, o: Output)
    requires StoredRun(c, init, store, tr) && tr != [] && o in tr[|tr| - 1].outs && o.SendToPeer? && o.message.Piece?
    ensures Coherent(c.metainfo)
    ensures VerifiedUpload(c, Last(init, tr), StoreOf(c.metainfo, store, tr), o.message.range, o.message.data)
  {
    var step, before := tr[|tr| - 1], Last(init, Init(tr));
    RunInv(c, init, Init(tr));
    hide Inv, Next, Verified, FromStore, StoreAfter;
    StoreAgreement(c, init, store, Init(tr));
    StepUploads(c, before, step.input, step.outs, step.after, StoreOf(c.metainfo, store, Init(tr)), o);
    hide VerifiedUpload;
    SameUpload(c, before, step.after, StoreOf(c.metainfo, store, Init(tr)), o.message.range, o.message.data);
  }

  lemma SameUpload(c: Config, s: State, s': State, store: bytes, range: BlockRange, data: bytes)
    requires Coherent(c.metainfo) && s'.pieces == s.pieces && VerifiedUpload(c, s, store, range, data)
    ensures VerifiedUpload(c, s', store, range, data)
  {
  }

  lemma CompletionIsRead(c: Config, s: State, input: Input, outs: seq<Output>, s': State, o: Output)
    requires Inv(c, s) && input.UploadReadCompleted? && Next(c, s, input, outs, s') && o in outs
    ensures input.range in s.pending && s.pending[input.range].readId == input.readId
    ensures o.SendToPeer? && o.message == M.Piece(input.range, input.data)
    ensures input.range.pieceIndex in CompleteSet(s'.pieces)
  {
    hide RegistryOk, InFlightOk, PiecesOk, Sends;
    SendsOnlySend(s.pending[input.range].peers * s.reg.peers.Keys, M.Piece(input.range, input.data), outs);
    assert ReadOk(c.metainfo, s.pieces, s.reg.peers.Keys, s.nextId, input.range, s.pending[input.range]);
  }
}
