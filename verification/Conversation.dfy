/**
 * What the swarm says, and when, told from the plain inputs (swarm.rs, `on_message`, `on_connected`,
 * `on_discovered`).
 */
module Conversation {
  import opened Wrappers
  import opened Bytes
  import opened Listings
  import opened Peers
  import opened Torrents
  import opened PieceManagers
  import opened Registries
  import opened SwarmEvents
  import opened Scheduling
  import opened SwarmSpec
  import opened SwarmInvariants
  import opened Runs
  import opened UploadPolicy
  import PlanRuns
  import M = Messages
  import X = ExtensionMessages

  // ---- One message ----

  /** Messages that say which pieces a peer has or offers. */
  predicate Offers(msg: M.Message) {
    msg.Bitfield? || msg.Have? || msg.HaveAll? || msg.SuggestPiece? || msg.AllowedFast?
  }

  /** Messages that only change what is known of their sender. */
  predicate Silent(msg: M.Message) {
    || msg.KeepAlive? || msg.Choke? || msg.NotInterested? || msg.HaveNone? || msg.RejectRequest?
    || msg.ExtensionHandshake? || msg.Unimplemented?
  }

  lemma HandlerReplies(c: Config, s: State, addr: SocketAddr, msg: M.Message, outs: seq<Output>)
    requires Ready(c, s) && addr in s.reg.peers && MessageOutputs(c, s, addr, msg, outs)
    ensures msg.Interested? ==> outs == [SendToPeer(addr, M.Unchoke)]
    ensures Offers(msg) ==> outs == [SendToPeer(addr, M.Interested)]
    ensures Silent(msg) || msg.Unchoke? ==> outs == []
  {
    hide PieceOutputs, ExtensionOutputs, Ready, FateOf;
  }

  /**
   * A message is answered if its sender is registered: `Interested` with `Unchoke`, what offers pieces with our
   * interest, before any request. A fast message without the extension ends the connection, a stranger is ignored.
   */
  lemma EveryReply(c: Config, s: State, addr: SocketAddr, msg: M.Message, outs: seq<Output>, s': State)
    requires Inv(c, s) && Next(c, s, MessageReceived(addr, msg), outs, s')
    ensures addr !in s.reg.peers ==> outs == [] && s' == s
    ensures addr in s.reg.peers && !Taken(s, addr, msg) ==> outs == [DisconnectPeer(addr)] && s' == s
    ensures addr in s.reg.peers && msg.Interested? ==> outs == [SendToPeer(addr, M.Unchoke)]
    ensures Taken(s, addr, msg) && Offers(msg) ==> outs != [] && outs[0] == SendToPeer(addr, M.Interested)
    ensures Taken(s, addr, msg) && Offers(msg) && !msg.AllowedFast? ==> |outs| == 1
    ensures Taken(s, addr, msg) && Silent(msg) ==> outs == []
  {
    hide Inv, Next, Handled, Ready, AfterMessage, MessageOutputs, Planned;
    if Taken(s, addr, msg) {
      var s1, k := TakenHandled(c, s, addr, msg, outs, s');
      HandledRest(c, s1, addr, msg, k, outs, s');
      HandlerReplies(c, s1, addr, msg, outs[..k]);
    } else {
      PlanRuns.InvReady(c, s);
      NotTaken(c, s, addr, msg, outs, s');
    }
  }

  /** A cancellation stops the read if its sender is the only one who waits for it. */
  lemma CancelIsAnswered(c: Config, s: State, addr: SocketAddr, r: BlockRange, outs: seq<Output>, s': State)
    requires Inv(c, s) && Next(c, s, MessageReceived(addr, M.Cancel(r)), outs, s') && addr in s.reg.peers
    ensures outs == if r in s.pending && s.pending[r].peers == {addr} then [CancelUploadRead(s.pending[r].readId)]
                    else []
    ensures r in s'.pending <==> r in s.pending && s.pending[r].peers != {addr}
  {
    hide Inv, Next, Handled, Ready;
    var s1, k := TakenHandled(c, s, addr, M.Cancel(r), outs, s');
    HandledRest(c, s1, addr, M.Cancel(r), k, outs, s');
    if r in s.pending {
      SomebodyWaits(c, s, r);
      if s.pending[r].peers - {addr} == {} {
        assert s.pending[r].peers == {addr};
      }
    }
  }

  lemma SomebodyWaits(c: Config, s: State, r: BlockRange)
    requires Inv(c, s) && r in s.pending
    ensures s.pending[r].peers != {}
  {
    assert ReadOk(c.metainfo, s.pieces, s.reg.peers.Keys, s.nextId, r, s.pending[r]);
  }

  // ---- Everything that is ever said ----

  /** The inputs after which an output occurs. */
  ghost predicate Occasion(s: State, input: Input, o: Output) {
    match o
    case SendToPeer(addr, message) => MessageOccasion(s, input, addr, message)
    case Broadcast(message) => message.Have? && input.MessageReceived? && input.message.Piece?
    case WritePiece(_, _) => input.MessageReceived? && input.message.Piece?
    case Completed => input.MessageReceived? && input.message.Piece?
    case ReadForUpload(_, range) => input.MessageReceived? && input.message == M.Request(range)
    case CancelUploadRead(_) =>
      || input.PeerDisconnected? || input.PeerConnected? || input.SetStatus?
      || (input.MessageReceived? && input.message.Cancel?)
    case ConnectPeer(_) => input.PeersDiscovered? || (input.MessageReceived? && input.message.Extension?)
    case DisconnectPeer(_) => input.PeerConnected? || input.MessageReceived?
  }

  ghost predicate MessageOccasion(s: State, input: Input, addr: SocketAddr, message: M.Message) {
    match message
    case Unchoke => input == MessageReceived(addr, M.Interested)
    case Interested =>
      || (input.PeerConnected? && input.addr == addr)
      || (input.MessageReceived? && input.addr == addr && Offers(input.message))
      || PlanRuns.Replans(s, input)
    case Request(_) => PlanRuns.Replans(s, input)
    case Piece(_, _) => input.UploadReadCompleted?
    case HaveAll => input.PeerConnected? && input.addr == addr
    case HaveNone => input.PeerConnected? && input.addr == addr
    case Bitfield(_) => input.PeerConnected? && input.addr == addr
    case Extension(_, _) =>
      input == OnTick(PexTick) || (input.MessageReceived? && input.addr == addr && input.message.Extension?)
    case _ => false
  }

  ghost predicate Occasions(s: State, input: Input, outs: seq<Output>) {
    forall o :: o in outs ==> Occasion(s, input, o)
  }

  lemma OccasionsAppend(s: State, input: Input, xs: seq<Output>, ys: seq<Output>)
    requires Occasions(s, input, xs) && Occasions(s, input, ys)
    ensures Occasions(s, input, xs + ys)
  {
    hide Occasion;
  }

  lemma {:induction false} PlanSays(s: State, input: Input, rs: seq<BlockRequest>)
    requires PlanRuns.Replans(s, input)
    ensures Occasions(s, input, RequestOutputs(rs))
  {
    hide PlanRuns.Replans;
    if rs != [] {
      PlanSays(s, input, rs[..|rs| - 1]);
    }
  }

  lemma PlannedSays(c: Config, s: State, input: Input, s1: State, outs: seq<Output>, s': State)
    requires Planned(c, s1, outs, s') && PlanRuns.Replans(s, input)
    ensures Occasions(s, input, outs)
  {
    hide PlanRuns.Replans, Occasion, RequestOutputs;
    if s1.status.Downloads() {
      var rs :| PlansWith(c, s1, rs, outs, s');
      PlanSays(s, input, rs);
    }
  }

  lemma CancelsSay(s: State, input: Input, which: set<BlockRange>, outs: seq<Output>)
    requires Cancels(s.pending, which, outs)
    requires input.PeerDisconnected? || input.PeerConnected? || input.SetStatus?
    ensures Occasions(s, input, outs)
  {
    hide Cancels;
    CancelsOnlyCancel(s.pending, which, outs);
  }

  lemma AcceptSays(s: State, input: Input, outs: seq<Output>)
    requires input.PeerConnected? && AcceptOutputs(s.pieces, input.addr, input.extensions, outs)
    ensures Occasions(s, input, outs)
  {
    assert outs == [outs[0], outs[1]];
  }

  lemma ConnectionSays(c: Config, s: State, input: Input, outs: seq<Output>, s': State)
    requires input.PeerConnected?
    requires OnConnected(c, s, input.addr, input.direction, input.id, input.extensions, outs, s')
    ensures Occasions(s, input, outs)
  {
    hide Judge, Cancels, AcceptOutputs, AfterGone, AfterAccept;
    match Judge(c.clientId, s.reg, input.direction, input.id)
    case Reject =>
    case Accept => AcceptSays(s, input, outs);
    case Replace(prev) =>
      CancelsSay(s, input, Orphaned(s.pending, prev), outs[..|outs| - 3]);
      AcceptSays(s, input, outs[|outs| - 2..]);
      assert outs == outs[..|outs| - 3] + [outs[|outs| - 3]] + outs[|outs| - 2..];
  }

  lemma DiscoverySays(s: State, input: Input, reg: Registry, addrs: seq<SocketAddr>)
    requires input.PeersDiscovered? || (input.MessageReceived? && input.message.Extension?)
    ensures Occasions(s, input, Unknown(reg, addrs))
  {
    DiscoveryOnlyConnects(reg, addrs);
  }

  lemma HandlerSays(c: Config, s: State, s0: State, addr: SocketAddr, msg: M.Message, outs: seq<Output>)
    requires Ready(c, s) && MessageOutputs(c, s, addr, msg, outs)
    ensures Occasions(s0, MessageReceived(addr, msg), outs)
  {
    hide PieceOutputs, ExtensionOutputs, Ready, FateOf;
    match msg
    case Piece(range, data) => PieceSays(c, s, s0, addr, range, data, outs);
    case Extension(extId, payload) => ExtensionSays(c, s, s0, addr, extId, payload, outs);
    case _ =>
  }

  lemma PieceSays(c: Config, s: State, s0: State, addr: SocketAddr, range: BlockRange, data: bytes, outs: seq<Output>)
    requires Ready(c, s) && PieceOutputs(c, s, addr, range, data, outs)
    ensures Occasions(s0, MessageReceived(addr, M.Piece(range, data)), outs)
  {
    hide Receipt, CompletionOutputs, Ready;
    var (r, pieces) := Receipt(c, s, addr, range, data);
    if r.Ok? && r.value.Some? {
      CompletionSays(s0, MessageReceived(addr, M.Piece(range, data)), r.value.value, AllComplete(pieces), s.reg.seeders,
                     outs);
    }
  }

  lemma CompletionSays(s: State, input: Input, done: CompletedPiece, last: bool, seeders: set<SocketAddr>,
                       outs: seq<Output>)
    requires CompletionOutputs(done, last, seeders, outs) && input.MessageReceived? && input.message.Piece?
    ensures Occasions(s, input, outs)
  {
    if last {
      DisconnectsOnlyDisconnect(seeders, outs[3..]);
      assert outs == [outs[0], outs[1], outs[2]] + outs[3..];
    } else {
      assert outs == [outs[0], outs[1]];
    }
  }

  lemma ExtensionSays(c: Config, s: State, s0: State, addr: SocketAddr, extId: byte, payload: bytes, outs: seq<Output>)
    requires ExtensionOutputs(c, s, addr, extId, payload, outs)
    ensures Occasions(s0, MessageReceived(addr, M.Extension(extId, payload)), outs)
  {
    hide X.DecodePex, X.DecodeUtMetadata, X.EncodeUtMetadata, Unknown, Listing;
    if extId == M.UT_PEX_EXT_ID && X.DecodePex(payload).Ok? {
      var order :| Listing(order, X.DecodePex(payload).value) && outs == Discovered(s, order);
      DiscoverySays(s0, MessageReceived(addr, M.Extension(extId, payload)), s.reg, order);
    }
  }

  lemma MessageSays(c: Config, s: State, addr: SocketAddr, msg: M.Message, outs: seq<Output>, s': State)
    requires Inv(c, s) && Next(c, s, MessageReceived(addr, msg), outs, s')
    ensures Occasions(s, MessageReceived(addr, msg), outs)
  {
    hide Inv, Next, Handled, Ready, AfterMessage, MessageOutputs, Planned, Occasions;
    if Taken(s, addr, msg) {
      var s1, k := TakenHandled(c, s, addr, msg, outs, s');
      HandledSays(c, s1, s, addr, msg, k, outs, s');
    } else {
      PlanRuns.InvReady(c, s);
      NotTaken(c, s, addr, msg, outs, s');
      RejectionSays(s, addr, msg, outs);
    }
  }

  lemma RejectionSays(s: State, addr: SocketAddr, msg: M.Message, outs: seq<Output>)
    requires outs == if addr in s.reg.peers then [DisconnectPeer(addr)] else []
    ensures Occasions(s, MessageReceived(addr, msg), outs)
  {
  }

  lemma HandledSays(c: Config, s: State, s0: State, addr: SocketAddr, msg: M.Message, k: nat, outs: seq<Output>,
                    s': State)
    requires Ready(c, s) && Handled(c, s, addr, msg, k, outs, s') && Taken(s0, addr, msg)
    ensures Occasions(s0, MessageReceived(addr, msg), outs)
  {
    hide Ready, AfterMessage, MessageOutputs, Planned, Occasion;
    HandlerSays(c, s, s0, addr, msg, outs[..k]);
    if msg.AffectsScheduling() {
      PlannedSays(c, s0, MessageReceived(addr, msg), AfterMessage(c, s, addr, msg), outs[k..], s');
    }
    OccasionsAppend(s0, MessageReceived(addr, msg), outs[..k], outs[k..]);
    assert outs == outs[..k] + outs[k..];
  }

  lemma StepSays(c: Config, s: State, input: Input, outs: seq<Output>, s': State)
    requires Inv(c, s) && Next(c, s, input, outs, s')
    ensures Occasions(s, input, outs)
  {
    hide Inv, Ready, OnConnected, OnMessage, Planned, OnPexTick, OnReadCompleted, Cancels, Sends, Occasion, Unknown,
      AfterGone, AfterLocal;
    match input
    case PeersDiscovered(addrs) => DiscoverySays(s, input, s.reg, addrs);
    case MessageReceived(addr, msg) => MessageSays(c, s, addr, msg, outs, s');
    case PeerDisconnected(addr) => CancelsSay(s, input, Orphaned(s.pending, addr), outs);
    case PeerConnected(_, _, _, _) => ConnectionSays(c, s, input, outs, s');
    case UploadReadCompleted(id, range, data) => CompletedReadSays(s, id, range, data, outs, s');
    case OnTick(BlockTick) => PlannedSays(c, s, input, s, outs, s');
    case OnTick(PexTick) => PexSays(s, outs);
    case LocalPiece(_, _) =>
    case SetStatus(status) =>
      if outs != [] {
        CancelsSay(s, input, s.pending.Keys, outs);
      }
  }

  lemma CompletedReadSays(s: State, id: nat, range: BlockRange, data: bytes, outs: seq<Output>, s': State)
    requires OnReadCompleted(s, id, range, data, outs, s')
    ensures Occasions(s, UploadReadCompleted(id, range, data), outs)
  {
    hide Sends;
    if outs != [] {
      SendsOnlySend(s.pending[range].peers * s.reg.peers.Keys, M.Piece(range, data), outs);
    }
  }

  lemma PexSays(s: State, outs: seq<Output>)
    requires OnPexTick(s, outs)
    ensures Occasions(s, OnTick(PexTick), outs)
  {
    hide OnPexTick;
    PexOnlyExtends(s, outs);
  }

  /**
   * Over every run each output has its occasion. In particular a peer is never choked, never told that we lost
   * interest, and unchoked only when it says that it is interested; pieces are announced only when a block arrives.
   */
  lemma EveryOutputHasItsOccasion(c: Config, init: State, tr: Trace)
    requires Run(c, init, tr) && tr != []
    ensures var step := tr[|tr| - 1];
      && Occasions(Last(init, Init(tr)), step.input, step.outs)
      && forall o :: o in step.outs && o.SendToPeer? ==>
        && !o.message.Choke? && !o.message.NotInterested?
        && (o.message.Unchoke? ==> step.input == MessageReceived(o.addr, M.Interested))
  {
    var step, before := tr[|tr| - 1], Last(init, Init(tr));
    hide Next, Inv, PlanRuns.Replans;
    RunInv(c, init, Init(tr));
    StepSays(c, before, step.input, step.outs, step.after);
    forall o | o in step.outs && o.SendToPeer?
      ensures && !o.message.Choke? && !o.message.NotInterested?
              && (o.message.Unchoke? ==> step.input == MessageReceived(o.addr, M.Interested)) {
      assert Occasion(before, step.input, o);
    }
  }

  // ---- Who is dialled ----

  /** One connection for each address that is not registered, in the order given. */
  ghost predicate Dials(reg: Registry, addrs: seq<SocketAddr>, keep: seq<nat>, outs: seq<Output>) {
    && (forall i, j :: 0 <= i < j < |keep| ==> keep[i] < keep[j])
    && (forall i :: i in keep <==> 0 <= i < |addrs| && addrs[i] !in reg.peers)
    && |outs| == |keep|
    && forall i :: 0 <= i < |keep| ==> keep[i] in keep && outs[i] == ConnectPeer(addrs[keep[i]])
  }

  lemma {:induction false} UnknownDials(reg: Registry, addrs: seq<SocketAddr>) returns (keep: seq<nat>)
    ensures Dials(reg, addrs, keep, Unknown(reg, addrs))
  {
    if addrs == [] {
      keep := [];
    } else {
      var n := |addrs| - 1;
      var init := UnknownDials(reg, addrs[..n]);
      keep := init + if addrs[n] in reg.peers then [] else [n];
      forall i ensures i in keep <==> 0 <= i < |addrs| && addrs[i] !in reg.peers {
        assert i in keep <==> i in init || (i == n && addrs[n] !in reg.peers);
      }
    }
  }

  /** Discovered addresses are dialled unless they are registered, and not at all once every piece is complete. */
  lemma DiscoveredAreDialled(c: Config, s: State, addrs: seq<SocketAddr>, outs: seq<Output>, s': State)
    requires Inv(c, s) && Next(c, s, PeersDiscovered(addrs), outs, s')
    ensures s' == s
    ensures (forall i :: 0 <= i < |s.pieces| ==> s.pieces[i].Complete?) ==> outs == []
    ensures (exists i :: 0 <= i < |s.pieces| && !s.pieces[i].Complete?) ==>
      exists keep :: Dials(s.reg, addrs, keep, outs)
  {
    hide Inv;
    if !AllComplete(s.pieces) {
      var keep := UnknownDials(s.reg, addrs);
    }
  }

  ghost predicate DialsEach(reg: Registry, addrs: set<SocketAddr>, outs: seq<Output>) {
    && (forall o :: o in outs <==> o.ConnectPeer? && o.addr in addrs && o.addr !in reg.peers)
    && forall i, j :: 0 <= i < j < |outs| ==> outs[i] != outs[j]
  }

  lemma ListedAreDialled(reg: Registry, addrs: set<SocketAddr>, order: seq<SocketAddr>, outs: seq<Output>)
    requires Listing(order, addrs) && outs == Unknown(reg, order)
    ensures DialsEach(reg, addrs, outs)
  {
    var keep := UnknownDials(reg, order);
    hide Unknown;
    forall o: Output | o.ConnectPeer? && o.addr in addrs && o.addr !in reg.peers ensures o in outs {
      assert o.addr in order;
      var i: nat :| i < |order| && order[i] == o.addr;
      assert i in keep;
      var j :| 0 <= j < |keep| && keep[j] == i;
      assert outs[j] == o;
    }
    forall o | o in outs ensures o.ConnectPeer? && o.addr in addrs && o.addr !in reg.peers {
      var j :| 0 <= j < |outs| && outs[j] == o;
      assert keep[j] in keep;
      assert order[keep[j]] in order;
    }
    forall i, j | 0 <= i < j < |outs| ensures outs[i] != outs[j] {
      assert keep[i] in keep && keep[j] in keep;
      assert order[keep[i]] != order[keep[j]];
    }
  }

  lemma ExtensionHandled(c: Config, s: State, addr: SocketAddr, extId: byte, payload: bytes, outs: seq<Output>,
                         s': State) returns (s1: State)
    requires Inv(c, s) && Next(c, s, MessageReceived(addr, M.Extension(extId, payload)), outs, s')
    requires addr in s.reg.peers
    ensures s1 == s.(reg := s1.reg) && s1.reg.peers == s.reg.peers
    ensures ExtensionOutputs(c, s1, addr, extId, payload, outs)
  {
    hide Inv, Next, Handled, Ready, ExtensionOutputs, SeederIn;
    var k: nat;
    s1, k := TakenHandled(c, s, addr, M.Extension(extId, payload), outs, s');
    HandledRest(c, s1, addr, M.Extension(extId, payload), k, outs, s');
    assert ApplyToPeer(s.reg.peers[addr], M.Extension(extId, payload)) == s.reg.peers[addr];
    assert s1.reg.peers == s.reg.peers;
  }

  /** A peer exchange dials each address it reports once, unless it is registered or the torrent is complete. */
  lemma ExchangedAreDialled(c: Config, s: State, addr: SocketAddr, payload: bytes, outs: seq<Output>, s': State)
    requires Inv(c, s) && Next(c, s, MessageReceived(addr, M.Extension(2, payload)), outs, s') && addr in s.reg.peers
    ensures X.DecodePex(payload).Err? || (forall i :: 0 <= i < |s.pieces| ==> s.pieces[i].Complete?) ==> outs == []
    ensures X.DecodePex(payload).Ok? && (exists i :: 0 <= i < |s.pieces| && !s.pieces[i].Complete?) ==>
      DialsEach(s.reg, X.DecodePex(payload).value, outs)
  {
    var s1 := ExtensionHandled(c, s, addr, 2, payload, outs, s');
    hide Inv, Next, Unknown, DialsEach, X.DecodePex;
    if X.DecodePex(payload).Ok? && !AllComplete(s.pieces) {
      var order :| Listing(order, X.DecodePex(payload).value) && outs == Discovered(s1, order);
      ListedAreDialled(s1.reg, X.DecodePex(payload).value, order, outs);
      SamePeersDial(s1.reg, s.reg, X.DecodePex(payload).value, outs);
    }
  }

  lemma SamePeersDial(r: Registry, q: Registry, addrs: set<SocketAddr>, outs: seq<Output>)
    requires r.peers == q.peers && DialsEach(r, addrs, outs)
    ensures DialsEach(q, addrs, outs)
  {
  }

  // ---- Extensions ----

  /** The number under which a peer takes an extension, as its last extension handshake gave it. */
  predicate Advertises(reg: Registry, addr: SocketAddr, name: bytes, id: byte) {
    && addr in reg.peers && reg.peers[addr].extensions.Some?
    && name in reg.peers[addr].extensions.value.extensions
    && reg.peers[addr].extensions.value.extensions[name] == id
  }

  /** What is sent for one metadata piece: 16384 bytes from its offset, or what is left there. */
  ghost predicate IsBlockOf(info: bytes, piece: nat, block: bytes) {
    var start := piece * 16384 % U64_LIMIT;
    if start >= |info| then block == []
    else if start + 16384 <= |info| then block == info[start..start + 16384]
    else block == info[start..]
  }

  /** A metadata request is answered with the block, under the number its sender advertised for "ut_metadata". */
  lemma MetadataIsServed(c: Config, s: State, addr: SocketAddr, payload: bytes, piece: nat, outs: seq<Output>,
                         s': State)
    requires Inv(c, s) && Next(c, s, MessageReceived(addr, M.Extension(1, payload)), outs, s') && addr in s.reg.peers
    requires X.DecodeUtMetadata(payload) == Ok(X.MetadataRequest(piece)) && piece < U64_LIMIT
    requires |c.metainfo.infoBytes| < U64_LIMIT
    ensures (forall id :: !Advertises(s.reg, addr, [117, 116, 95, 109, 101, 116, 97, 100, 97, 116, 97], id)) ==>
      outs == []
    ensures forall id :: Advertises(s.reg, addr, [117, 116, 95, 109, 101, 116, 97, 100, 97, 116, 97], id) ==>
      && |outs| == 1 && outs[0].SendToPeer? && outs[0].addr == addr
      && outs[0].message.Extension? && outs[0].message.extId == id
      && var reply := X.DecodeUtMetadata(outs[0].message.payload);
      && reply.Ok? && reply.value.MetadataData? && reply.value.piece == piece
      && reply.value.totalSize == |c.metainfo.infoBytes| && IsBlockOf(c.metainfo.infoBytes, piece, reply.value.data)
  {
    MetadataName();
    var s1 := ExtensionHandled(c, s, addr, 1, payload, outs, s');
    hide Inv, Next, X.DecodeUtMetadata, X.EncodeUtMetadata;
    X.UtMetadataRoundTripIff(X.MetadataData(piece, |c.metainfo.infoBytes|, InfoBytesBlock(c.metainfo, piece)));
    var name: bytes := [117, 116, 95, 109, 101, 116, 97, 100, 97, 116, 97];
    if PeerExtensionId(s1.reg, addr, name).Some? {
      assert Advertises(s.reg, addr, name, PeerExtensionId(s1.reg, addr, name).value);
    }
  }

  lemma MetadataName()
    ensures UT_METADATA == [117, 116, 95, 109, 101, 116, 97, 100, 97, 116, 97]
    ensures UT_PEX == [117, 116, 95, 112, 101, 120]
  {
    assert "ut_metadata" == ['u', 't', '_', 'm', 'e', 't', 'a', 'd', 'a', 't', 'a'];
    assert "ut_pex" == ['u', 't', '_', 'p', 'e', 'x'];
  }

  /**
   * The exchange goes once to every classified peer that advertised "ut_pex", under its own number, and reports the
   * classified peers: exactly, when there are any and all have IPv4 addresses.
   */
  lemma PeersAreExchanged(c: Config, s: State, outs: seq<Output>, s': State) returns (payload: bytes)
    requires Inv(c, s) && Next(c, s, OnTick(PexTick), outs, s')
    ensures s' == s
    ensures forall o :: o in outs <==>
      && o.SendToPeer? && o.addr in s.reg.seeders + s.reg.leechers
      && o.message.Extension? && o.message.payload == payload
      && Advertises(s.reg, o.addr, [117, 116, 95, 112, 101, 120], o.message.extId)
    ensures forall i, j :: 0 <= i < j < |outs| ==> outs[i] != outs[j]
    ensures X.IsPexEncoding(payload, s.reg.seeders + s.reg.leechers)
  {
    MetadataName();
    hide Inv, X.IsPexEncoding;
    assert OnPexTick(s, outs);
    var order: seq<SocketAddr>;
    order, payload :| && Listing(order, PexPeers(s.reg)) && X.IsPexEncoding(payload, s.reg.seeders + s.reg.leechers)
                      && PexOf(s.reg, order, payload, outs);
    hide Next, OnPexTick;
    PexReaches(s.reg, order, payload, outs);
  }

  lemma PexReaches(reg: Registry, order: seq<SocketAddr>, payload: bytes, outs: seq<Output>)
    requires Listing(order, PexPeers(reg)) && PexOf(reg, order, payload, outs)
    ensures forall o :: o in outs <==>
      && o.SendToPeer? && o.addr in reg.seeders + reg.leechers
      && o.message.Extension? && o.message.payload == payload && Advertises(reg, o.addr, UT_PEX, o.message.extId)
    ensures forall i, j :: 0 <= i < j < |outs| ==> outs[i] != outs[j]
  {
    forall o: Output
      | && o.SendToPeer? && o.addr in reg.seeders + reg.leechers
        && o.message.Extension? && o.message.payload == payload && Advertises(reg, o.addr, UT_PEX, o.message.extId)
      ensures o in outs {
      assert o.addr in PexPeers(reg);
      assert o.addr in order;
      var i :| 0 <= i < |order| && order[i] == o.addr;
      assert outs[i] == o;
    }
    forall o | o in outs
      ensures && o.SendToPeer? && o.addr in reg.seeders + reg.leechers
              && o.message.Extension? && o.message.payload == payload
              && Advertises(reg, o.addr, UT_PEX, o.message.extId) {
      var i :| 0 <= i < |outs| && outs[i] == o;
      assert order[i] in order;
      assert order[i] in PexPeers(reg);
    }
  }
}
