/** What a block from a peer does, told from the plain fields (swarm.rs, `on_message_piece`; piece_manager.rs). */
module BlockReceipt {
  import opened Wrappers
  import opened Bytes
  import opened Listings
  import opened Peers
  import opened Torrents
  import opened PieceManagers
  import opened Assignments
  import opened Registries
  import opened SwarmEvents
  import opened SwarmSpec
  import opened SwarmInvariants
  import opened UploadPolicy
  import PlanRuns
  import Scheduling
  import M = Messages

  // ---- One piece ----

  ghost predicate AllReceived(blocks: seq<BlockState>) {
    forall k :: 0 <= k < |blocks| ==> blocks[k].Received?
  }

  /** The blocks are the content, cut every 16384 bytes. */
  ghost predicate CutFrom(content: bytes, blocks: seq<BlockState>) {
    && |blocks| == (|content| + 16383) / 16384
    && forall k :: 0 <= k < |blocks| ==>
      && blocks[k].Received?
      && blocks[k].data == if k * 16384 + 16384 <= |content| then content[k * 16384..k * 16384 + 16384]
                           else content[k * 16384..]
  }

  /** A piece that has taken its block `k`: it goes on, or is complete, or starts over. */
  ghost predicate Took(sha: bytes -> Hash, expected: Hash, st: PieceState, k: nat, data: bytes, st': PieceState)
    requires st.Partial? && k < |st.blocks|
  {
    var blocks := st.blocks[k := Received(data)];
    if !AllReceived(blocks) then st' == Partial(blocks, st.received + 1)
    else exists content: bytes ::
      && CutFrom(content, blocks)
      && st' == if sha(content) == expected then Complete else Partial(seq(|blocks|, _ => Missing), 0)
  }

  lemma JoinedIsCut(length: nat, blocks: seq<BlockState>)
    requires length > 0 && |blocks| == BlockCount(length) && AllReceived(blocks)
    requires forall k :: 0 <= k < |blocks| ==> |blocks[k].data| == BlockLen(length, k)
    ensures CutFrom(Joined(blocks), blocks) && |Joined(blocks)| == length
  {
    JoinedLength(length, blocks);
    BlockCountPositive(length);
    BlockInterval(length, 0);
    forall k | 0 <= k < |blocks| ensures k * 16384 + |blocks[k].data| <= |Joined(blocks)|
      ensures Joined(blocks)[k * 16384..k * 16384 + |blocks[k].data|] == blocks[k].data {
      JoinedAt(length, blocks, k);
    }
    hide Joined;
  }

  lemma {:induction false} JoinedAt(length: nat, blocks: seq<BlockState>, k: nat)
    requires |blocks| <= BlockCount(length) && k < |blocks|
    requires forall j :: 0 <= j < |blocks| ==> blocks[j].Received? && |blocks[j].data| == BlockLen(length, j)
    ensures k * 16384 + |blocks[k].data| <= |Joined(blocks)|
    ensures Joined(blocks)[k * 16384..k * 16384 + |blocks[k].data|] == blocks[k].data
  {
    var n := |blocks| - 1;
    var head, tail := Joined(blocks[..n]), blocks[n].data;
    JoinedLength(length, blocks[..n]);
    BlockInterval(length, n);
    assert Joined(blocks) == head + tail;
    if k < n {
      JoinedAt(length, blocks[..n], k);
      InHead(head, tail, k * 16384, k * 16384 + |blocks[k].data|);
    } else {
      assert (head + tail)[|head|..] == tail && |head| == k * 16384;
    }
  }

  lemma InHead(head: bytes, tail: bytes, lo: nat, hi: nat)
    requires lo <= hi <= |head|
    ensures (head + tail)[lo..hi] == head[lo..hi]
  {
  }

  lemma StoredAs(sha: bytes -> Hash, length: nat, expected: Hash, st: PieceState, k: nat, data: bytes)
    requires length > 0 && PieceOk(length, st) && Accepts(length, st, k, data)
    ensures Took(sha, expected, st, k, data, StoreBlock(sha, length, expected, st, k, data).1)
    ensures var r := StoreBlock(sha, length, expected, st, k, data).0;
      r.Ok? && (r.value.Some? ==> CutFrom(r.value.value, st.blocks[k := Received(data)]))
  {
    var blocks := st.blocks[k := Received(data)];
    CountUpdate(st.blocks, k, data);
    CountAll(blocks);
    if AllReceived(blocks) {
      JoinedIsCut(length, blocks);
    }
    hide Joined, CountReceived, CutFrom;
  }

  // ---- One step ----

  /** The block was asked of this peer and has neither come nor been given up since. */
  ghost predicate Asked(s: State, addr: SocketAddr, range: BlockRange) {
    addr in s.inFlight && range in s.inFlight[addr]
  }

  /** The block is still missing, and comes with the length it was asked for. */
  ghost predicate Wanted(s: State, range: BlockRange, data: bytes) {
    && |data| == range.len && range.pieceIndex < |s.pieces| && s.pieces[range.pieceIndex].Partial?
    && range.pieceOffset / 16384 < |s.pieces[range.pieceIndex].blocks|
    && s.pieces[range.pieceIndex].blocks[range.pieceOffset / 16384].Missing?
  }

  ghost predicate Completes(s: State, s': State, i: nat) {
    i < |s.pieces| && i < |s'.pieces| && !s.pieces[i].Complete? && s'.pieces[i].Complete?
  }

  lemma HeldIsReal(c: Config, s: State, addr: SocketAddr, range: BlockRange)
    requires Inv(c, s) && IsHolder(s.inFlight, range, addr)
    ensures PiecesOk(c.metainfo, s.pieces) && RealBlock(c.metainfo, range)
  {
  }

  lemma WantedIsAccepted(m: Metainfo, s: State, range: BlockRange, data: bytes)
    requires PiecesOk(m, s.pieces) && RealBlock(m, range)
    ensures range.pieceIndex < |s.pieces| && range.pieceOffset % BLOCK_SIZE == 0
    ensures PieceLen(m, range.pieceIndex) > 0 && PieceOk(PieceLen(m, range.pieceIndex), s.pieces[range.pieceIndex])
    ensures Wanted(s, range, data)
      <==> |data| == range.len && Accepts(PieceLen(m, range.pieceIndex), s.pieces[range.pieceIndex],
                                          range.pieceOffset / BLOCK_SIZE, data)
    ensures |data| == range.len && s.pieces[range.pieceIndex].Partial? ==>
      && range.pieceOffset / BLOCK_SIZE < |s.pieces[range.pieceIndex].blocks|
      && |data| == BlockLen(PieceLen(m, range.pieceIndex), range.pieceOffset / BLOCK_SIZE)
  {
    hide CountReceived, TotalSize, PieceLen;
  }

  lemma StoreIgnores(sha: bytes -> Hash, length: nat, expected: Hash, st: PieceState, k: nat, data: bytes)
    requires PieceOk(length, st) && !Accepts(length, st, k, data)
    requires st.Partial? ==> k < |st.blocks| && |data| == BlockLen(length, k)
    ensures StoreBlock(sha, length, expected, st, k, data) == (Ok(None), st)
  {
    hide CountReceived;
  }

  /** What the handler makes of a block that was asked for. */
  lemma AskedBlock(c: Config, s: State, addr: SocketAddr, range: BlockRange, data: bytes)
    requires Inv(c, s) && IsHolder(s.inFlight, range, addr)
    ensures var s' := AfterPiece(c, s, addr, range, data); var r := Receipt(c, s, addr, range, data).0;
      var i, k := range.pieceIndex, range.pieceOffset / 16384;
      && s'.downloaded == s.downloaded + (if |data| == range.len then |data| else 0)
      && (!Wanted(s, range, data) ==> s'.pieces == s.pieces && !(r.Ok? && r.value.Some?))
      && (Wanted(s, range, data) ==>
            && |s'.pieces| == |s.pieces| && s'.pieces == s.pieces[i := s'.pieces[i]] && i < |c.metainfo.pieces|
            && Took(c.sha, c.metainfo.pieces[i], s.pieces[i], k, data, s'.pieces[i])
            && (r.Ok? && r.value.Some? <==> Completes(s, s', i))
            && (Completes(s, s', i) ==>
                  var done := r.value.value;
                  && done.range == BlockRange(i, 0, |done.data|)
                  && CutFrom(done.data, s.pieces[i].blocks[k := Received(data)])))
  {
    HeldIsReal(c, s, addr, range);
    WantedIsAccepted(c.metainfo, s, range, data);
    var m, i, k := c.metainfo, range.pieceIndex, range.pieceOffset / 16384;
    hide Inv, CountReceived, TotalSize, PieceLen, RealBlock, Took, CutFrom;
    ReceiveIntoKeeps(c.sha, m, s.pieces, range, data);
    hide PieceOk;
    if Wanted(s, range, data) {
      StoredAs(c.sha, PieceLen(m, i), m.pieces[i], s.pieces[i], k, data);
    } else if |data| == range.len {
      StoreIgnores(c.sha, PieceLen(m, i), m.pieces[i], s.pieces[i], k, data);
    }
  }

  /** Interest and requests only. */
  ghost predicate OnlyRequests(outs: seq<Output>) {
    forall o :: o in outs ==> o.SendToPeer? && (o.message.Interested? || o.message.Request?)
  }

  /** Each of the peers is disconnected, once. */
  ghost predicate DisconnectsEach(addrs: set<SocketAddr>, outs: seq<Output>) {
    && (forall o :: o in outs <==> o.DisconnectPeer? && o.addr in addrs)
    && forall i, j :: 0 <= i < j < |outs| ==> outs[i] != outs[j]
  }

  /** A piece is announced and written whole, and the last one ends the download; requests may follow. */
  ghost predicate Finishes(s': State, blocks: seq<BlockState>, i: nat, outs: seq<Output>, content: bytes, n: nat) {
    && 2 <= n <= |outs| && CutFrom(content, blocks)
    && outs[0] == Broadcast(M.Have(i)) && outs[1] == WritePiece(BlockRange(i, 0, |content|), content)
    && (if forall j :: 0 <= j < |s'.pieces| ==> s'.pieces[j].Complete? then
          n >= 3 && outs[2] == Completed && DisconnectsEach(s'.reg.seeders, outs[3..n])
        else n == 2)
    && OnlyRequests(outs[n..])
  }

  ghost predicate Finishing(s': State, blocks: seq<BlockState>, i: nat, outs: seq<Output>) {
    exists content, n :: Finishes(s', blocks, i, outs, content, n)
  }

  lemma DisconnectsAre(seeders: set<SocketAddr>, outs: seq<Output>)
    requires Disconnects(seeders, outs)
    ensures DisconnectsEach(seeders, outs)
  {
    var order :| Listing(order, seeders) && DisconnectsOf(order, outs);
    forall o: Output | o.DisconnectPeer? && o.addr in seeders ensures o in outs {
      assert o.addr in order;
      var i :| 0 <= i < |order| && order[i] == o.addr;
      assert outs[i] == o;
    }
    forall o | o in outs ensures o.DisconnectPeer? && o.addr in seeders {
      var i :| 0 <= i < |outs| && outs[i] == o;
      assert order[i] in order;
    }
  }

  lemma {:induction false} PlanOnlyRequests(rs: seq<Scheduling.BlockRequest>)
    ensures OnlyRequests(Scheduling.RequestOutputs(rs))
  {
    if rs != [] {
      PlanOnlyRequests(rs[..|rs| - 1]);
    }
  }

  lemma PlannedOnlyRequests(c: Config, s: State, outs: seq<Output>, s': State)
    requires Planned(c, s, outs, s')
    ensures OnlyRequests(outs) && s' == s.(inFlight := s'.inFlight)
  {
    if s.status.Downloads() {
      var rs :| PlansWith(c, s, rs, outs, s');
      PlanOnlyRequests(rs);
    }
  }

  lemma FinishedAs(c: Config, s: State, s': State, done: CompletedPiece, blocks: seq<BlockState>, outs: seq<Output>,
                   n: nat)
    requires n <= |outs| && CompletionOutputs(done, AllComplete(s'.pieces), s'.reg.seeders, outs[..n])
    requires done.range == BlockRange(done.range.pieceIndex, 0, |done.data|) && CutFrom(done.data, blocks)
    requires OnlyRequests(outs[n..])
    ensures Finishes(s', blocks, done.range.pieceIndex, outs, done.data, n)
  {
    hide CutFrom, OnlyRequests, Disconnects;
    if AllComplete(s'.pieces) {
      assert outs[..n][3..] == outs[3..n];
      DisconnectsAre(s'.reg.seeders, outs[3..n]);
    }
  }

  /**
   * A block that was asked of its sender, has the right length and is still missing is taken: its piece goes on,
   * or, when that was the last block, is announced and written if its bytes have the expected hash and starts over
   * if not. Any other block changes no piece. Every block that was asked for counts as downloaded.
   */
  lemma BlockIsTaken(c: Config, s: State, addr: SocketAddr, range: BlockRange, data: bytes, outs: seq<Output>,
                     s': State)
    requires Inv(c, s) && Next(c, s, MessageReceived(addr, M.Piece(range, data)), outs, s') && addr in s.reg.peers
    ensures s'.downloaded == s.downloaded + if Asked(s, addr, range) && |data| == range.len then |data| else 0
    ensures !(Asked(s, addr, range) && Wanted(s, range, data)) ==> s'.pieces == s.pieces
    ensures Asked(s, addr, range) && Wanted(s, range, data) ==>
      var i, k := range.pieceIndex, range.pieceOffset / 16384;
      && |s'.pieces| == |s.pieces| == |c.metainfo.pieces| && s'.pieces == s.pieces[i := s'.pieces[i]]
      && Took(c.sha, c.metainfo.pieces[i], s.pieces[i], k, data, s'.pieces[i])
    ensures !Completes(s, s', range.pieceIndex) ==> OnlyRequests(outs)
    ensures Completes(s, s', range.pieceIndex) ==>
      var i, k := range.pieceIndex, range.pieceOffset / 16384;
      && s.pieces[i].Partial? && k < |s.pieces[i].blocks|
      && Finishing(s', s.pieces[i].blocks[k := Received(data)], i, outs)
  {
    hide Inv, Next, Handled, Ready, Took, Finishes, OnlyRequests, Receipt, CompletionOutputs;
    var s1, n := TakenHandled(c, s, addr, M.Piece(range, data), outs, s');
    TakenInv(c, s, addr, range, data, s1);
    HandledPiece(c, s1, addr, range, data, outs, s', n);
  }

  lemma TakenInv(c: Config, s: State, addr: SocketAddr, range: BlockRange, data: bytes, s1: State)
    requires Inv(c, s) && ApplyMessage(s.reg, |c.metainfo.pieces|, addr, M.Piece(range, data)).Ok?
    requires s1 == s.(reg := ApplyMessage(s.reg, |c.metainfo.pieces|, addr, M.Piece(range, data)).value)
    ensures Inv(c, s1) && |s1.pieces| == |c.metainfo.pieces|
  {
    hide Inv, ApplyMessage;
    ApplyKeepsInv(c, s, addr, M.Piece(range, data));
    InvLengths(c, s1);
  }

  lemma InvLengths(c: Config, s: State)
    requires Inv(c, s)
    ensures |s.pieces| == |c.metainfo.pieces|
  {
  }

  lemma HandledPiece(c: Config, s: State, addr: SocketAddr, range: BlockRange, data: bytes, outs: seq<Output>,
                     s': State, n: nat)
    requires Inv(c, s) && |s.pieces| == |c.metainfo.pieces|
    requires Handled(c, s, addr, M.Piece(range, data), n, outs, s')
    ensures s'.downloaded == s.downloaded + if Asked(s, addr, range) && |data| == range.len then |data| else 0
    ensures !(Asked(s, addr, range) && Wanted(s, range, data)) ==> s'.pieces == s.pieces
    ensures Asked(s, addr, range) && Wanted(s, range, data) ==>
      var i, k := range.pieceIndex, range.pieceOffset / 16384;
      && |s'.pieces| == |s.pieces| && s'.pieces == s.pieces[i := s'.pieces[i]]
      && Took(c.sha, c.metainfo.pieces[i], s.pieces[i], k, data, s'.pieces[i])
    ensures !Completes(s, s', range.pieceIndex) ==> OnlyRequests(outs)
    ensures Completes(s, s', range.pieceIndex) ==>
      var i, k := range.pieceIndex, range.pieceOffset / 16384;
      && s.pieces[i].Partial? && k < |s.pieces[i].blocks|
      && Finishing(s', s.pieces[i].blocks[k := Received(data)], i, outs)
  {
    hide Inv, Took, Finishes, OnlyRequests, Receipt, CompletionOutputs, AfterPiece, CutFrom, Planned;
    var mid := AfterPiece(c, s, addr, range, data);
    PlannedOnlyRequests(c, mid, outs[n..], s');
    assert outs == outs[..n] + outs[n..];
    if Asked(s, addr, range) {
      AskedBlock(c, s, addr, range, data);
      ReceiptPieces(c, s, addr, range, data);
      var r := Receipt(c, s, addr, range, data).0;
      if r.Ok? && r.value.Some? {
        FinishedAs(c, s, s', r.value.value,
                   s.pieces[range.pieceIndex].blocks[range.pieceOffset / 16384 := Received(data)],
                   outs, n);
      }
    } else {
      NotAsked(c, s, addr, range, data);
    }
  }

  lemma ReceiptPieces(c: Config, s: State, addr: SocketAddr, range: BlockRange, data: bytes)
    requires Ready(c, s) && IsHolder(s.inFlight, range, addr)
    ensures var s' := AfterPiece(c, s, addr, range, data);
      s'.pieces == Receipt(c, s, addr, range, data).1 && s'.reg == s.reg
  {
    hide ReceiveInto, Ready;
  }

  lemma NotAsked(c: Config, s: State, addr: SocketAddr, range: BlockRange, data: bytes)
    requires Ready(c, s) && !IsHolder(s.inFlight, range, addr)
    ensures AfterPiece(c, s, addr, range, data) == s
    ensures Receipt(c, s, addr, range, data) == (Ok(None), s.pieces)
  {
    hide ReceiveInto, Ready;
  }

  /** Nothing but a block from a peer, or one from the local store, touches a piece; only the former is a download. */
  lemma OtherStepsKeepPieces(c: Config, s: State, input: Input, outs: seq<Output>, s': State)
    requires Inv(c, s) && Next(c, s, input, outs, s')
    ensures !(input.MessageReceived? && input.message.Piece?) ==> s'.downloaded == s.downloaded
    ensures !(input.MessageReceived? && input.message.Piece?) && !input.LocalPiece? ==> s'.pieces == s.pieces
  {
    hide Inv, Ready, OnMessage, Planned, OnPexTick, Cancels, Sends, Judge, AcceptOutputs, AfterDisconnected,
      AfterConnected, FillLocal, UnreceivedBlocks;
    match input
    case MessageReceived(addr, msg) =>
      if !msg.Piece? {
        MessageKeepsPieces(c, s, addr, msg, outs, s');
      }
    case OnTick(BlockTick) => PlannedOnlyRequests(c, s, outs, s');
    case _ =>
  }

  lemma MessageKeepsPieces(c: Config, s: State, addr: SocketAddr, msg: M.Message, outs: seq<Output>, s': State)
    requires Inv(c, s) && Next(c, s, MessageReceived(addr, msg), outs, s') && !msg.Piece?
    ensures s'.pieces == s.pieces && s'.downloaded == s.downloaded
  {
    hide Inv, Next, Handled, Ready, AfterMessage, MessageOutputs, Planned;
    if Taken(s, addr, msg) {
      var s1, k := TakenHandled(c, s, addr, msg, outs, s');
      HandledRest(c, s1, addr, msg, k, outs, s');
      HandlerKeepsPieces(c, s1, addr, msg);
    } else {
      PlanRuns.InvReady(c, s);
      NotTaken(c, s, addr, msg, outs, s');
    }
  }

  lemma HandlerKeepsPieces(c: Config, s: State, addr: SocketAddr, msg: M.Message)
    requires Ready(c, s) && !msg.Piece?
    ensures AfterMessage(c, s, addr, msg).pieces == s.pieces && AfterMessage(c, s, addr, msg).downloaded == s.downloaded
  {
    hide Ready, FateOf;
  }
}
