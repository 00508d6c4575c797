/** The swarm object (swarm.rs): registry, assignments, pieces and pending reads behind one `Step`. */
module Swarms {
  import opened Wrappers
  import opened Bytes
  import opened Listings
  import opened Peers
  import opened Torrents
  import opened PieceManagers
  import opened Assignments
  import opened Registries
  import opened SwarmEvents
  import opened Scheduling
  import opened SwarmSpec
  import M = Messages
  import X = ExtensionMessages

  // ---- Loops over hash tables ----

  lemma CancelMore(rs: Reads, order: seq<BlockRange>, gone: set<BlockRange>, outs: seq<Output>, r: BlockRange)
    requires Listing(order, gone) && CancelsOf(rs, order, outs) && r in rs && r !in gone
    ensures Listing(order + [r], gone + {r}) && CancelsOf(rs, order + [r], outs + [CancelUploadRead(rs[r].readId)])
  {
    ListingMore(order, gone, r);
  }

  lemma CancelsIs(rs: Reads, order: seq<BlockRange>, gone: set<BlockRange>, outs: seq<Output>)
    requires Listing(order, gone) && CancelsOf(rs, order, outs)
    ensures Cancels(rs, gone, outs)
  {
  }

  lemma NothingSent(message: M.Message, len: nat)
    ensures Listing<SocketAddr>([], {}) && SendsOf([], message, []) && BytesTo(0, len) == 0
  {
  }

  lemma SendMore(order: seq<SocketAddr>, to: set<SocketAddr>, message: M.Message, outs: seq<Output>, addr: SocketAddr)
    requires Listing(order, to) && SendsOf(order, message, outs) && addr !in to
    ensures Listing(order + [addr], to + {addr}) && SendsOf(order + [addr], message, outs + [SendToPeer(addr, message)])
  {
    ListingMore(order, to, addr);
  }

  lemma SentAll(order: seq<SocketAddr>, to: set<SocketAddr>, message: M.Message, outs: seq<Output>)
    requires Listing(order, to) && SendsOf(order, message, outs)
    ensures Sends(to, message, outs) && |order| == |to|
  {
    ListingLength(order, to);
  }

  lemma BytesToMore(n: nat, len: nat)
    ensures BytesTo(n + 1, len) == BytesTo(n, len) + len
  {
  }

  /** The table while `retain` has yet to visit `left`. */
  ghost predicate Trimming(before: Reads, addr: SocketAddr, left: set<BlockRange>, now: Reads) {
    && left <= before.Keys && left <= now.Keys <= before.Keys
    && (forall r :: r in left ==> now[r] == before[r])
    && (forall r :: r in before && r !in left ==> (r in now <==> before[r].peers - {addr} != {}))
    && (forall r :: r in now && r !in left ==> now[r] == PendingRead(before[r].readId, before[r].peers - {addr}))
  }

  method DrainReads(rs: Reads) returns (outs: seq<Output>)
    ensures Cancels(rs, rs.Keys, outs)
  {
    outs := [];
    var left := rs.Keys;
    ghost var order: seq<BlockRange>, gone: set<BlockRange> := [], {};
    while left != {}
      invariant left <= rs.Keys && gone == rs.Keys - left
      invariant Listing(order, gone) && CancelsOf(rs, order, outs)
      decreases |left|
    {
      var range :| range in left;
      CancelMore(rs, order, gone, outs, range);
      outs := outs + [CancelUploadRead(rs[range].readId)];
      left, order, gone := left - {range}, order + [range], gone + {range};
    }
    assert gone == rs.Keys;
  }

  lemma PexMore(reg: Registry, order: seq<SocketAddr>, payload: bytes, outs: seq<Output>, addr: SocketAddr)
    requires PexOf(reg, order, payload, outs) && PeerExtensionId(reg, addr, UT_PEX).Some?
    ensures PexOf(reg, order + [addr], payload,
                  outs + [SendToPeer(addr, M.Extension(PeerExtensionId(reg, addr, UT_PEX).value, payload))])
  {
    hide PeerExtensionId;
  }

  /** The exchange message for every classified peer that advertised the extension. */
  method PexMessages(reg: Registry) returns (outs: seq<Output>)
    ensures exists order, payload ::
      && Listing(order, PexPeers(reg)) && X.IsPexEncoding(payload, reg.seeders + reg.leechers)
      && PexOf(reg, order, payload, outs)
  {
    var addrs := reg.seeders + reg.leechers;
    var payload := X.EncodePexMessage(addrs);
    outs := [];
    var left := addrs;
    ghost var order: seq<SocketAddr>, done: set<SocketAddr> := [], {};
    hide Listing, PexOf, PeerExtensionId, X.IsPexEncoding, PexPeers;
    PexStarts(reg, payload);
    while left != {}
      invariant left <= addrs && done !! left
      invariant forall a :: a in PexPeers(reg) <==> a in done || (a in left && PeerExtensionId(reg, a, UT_PEX).Some?)
      invariant Listing(order, done) && PexOf(reg, order, payload, outs)
      decreases |left|
    {
      var addr :| addr in left;
      var extId := PeerExtensionId(reg, addr, UT_PEX);
      if extId.Some? {
        PexMore(reg, order, payload, outs, addr);
        ListingMore(order, done, addr);
        outs := outs + [SendToPeer(addr, M.Extension(extId.value, payload))];
        order, done := order + [addr], done + {addr};
      }
      left := left - {addr};
    }
    assert done == PexPeers(reg);
  }

  lemma PexStarts(reg: Registry, payload: bytes)
    ensures Listing<SocketAddr>([], {}) && PexOf(reg, [], payload, [])
    ensures forall a :: a in PexPeers(reg) <==> a in reg.seeders + reg.leechers && PeerExtensionId(reg, a, UT_PEX).Some?
  {
  }

  lemma TrimDrop(before: Reads, addr: SocketAddr, left: set<BlockRange>, now: Reads, r: BlockRange)
    requires Trimming(before, addr, left, now) && r in left && before[r].peers - {addr} == {}
    ensures Trimming(before, addr, left - {r}, now - {r})
  {
  }

  lemma TrimKeep(before: Reads, addr: SocketAddr, left: set<BlockRange>, now: Reads, r: BlockRange)
    requires Trimming(before, addr, left, now) && r in left && before[r].peers - {addr} != {}
    ensures Trimming(before, addr, left - {r}, now[r := PendingRead(before[r].readId, before[r].peers - {addr})])
  {
  }

  lemma TrimStarts(before: Reads, addr: SocketAddr)
    ensures Trimming(before, addr, before.Keys, before)
    ensures Listing<BlockRange>([], {}) && CancelsOf(before, [], [])
    ensures forall r :: r in Orphaned(before, addr) <==> r in before && before[r].peers - {addr} == {}
  {
  }

  lemma TrimEnds(before: Reads, addr: SocketAddr, now: Reads)
    requires Trimming(before, addr, {}, now)
    ensures now == WithoutWaiter(before, addr)
  {
  }

  lemma TrimAt(before: Reads, addr: SocketAddr, left: set<BlockRange>, now: Reads, r: BlockRange)
    requires Trimming(before, addr, left, now) && r in left
    ensures r in before && r in now && now[r] == before[r]
  {
  }

  class Swarm {
    const config: Config
    const registry: PeerRegistry
    const assignments: BlockAssignments
    const manager: PieceManager
    var status: SwarmStatus
    var downloaded: nat
    var uploaded: nat
    var pending: Reads
    var nextId: nat

    ghost predicate Valid()
      reads manager.pieces, manager.bitfield.data
      ensures Valid() ==> Coherent(config.metainfo) && PiecesOk(config.metainfo, manager.States())
    {
      manager.Valid() && manager.metainfo == config.metainfo && registry.Total() == |config.metainfo.pieces|
    }

    function View(): State
      reads this, registry, registry.availability, assignments, manager.pieces
    {
      State(registry.View(), assignments.byPeer, manager.States(), status, downloaded, uploaded, pending, nextId)
    }

    constructor (config: Config)
      requires Coherent(config.metainfo)
      ensures Valid() && this.config == config && IsInit(config, View())
      ensures fresh(registry) && fresh(registry.availability) && fresh(assignments)
      ensures fresh(manager.pieces) && fresh(manager.bitfield) && fresh(manager.bitfield.data)
    {
      this.config := config;
      registry := new PeerRegistry(|config.metainfo.pieces|);
      assignments := new BlockAssignments();
      manager := new PieceManager(config.metainfo);
      status, downloaded, uploaded, pending, nextId := Active, 0, 0, map[], 0;
    }

    method OnSwarmCommand(newStatus: SwarmStatus) returns (outs: seq<Output>)
      modifies this`status, this`pending
      ensures OnSetStatus(old(View()), newStatus, outs, View())
    {
      hide Cancels;
      status := newStatus;
      if status.Uploads() {
        return [];
      }
      outs := DrainReads(pending);
      pending := map[];
    }

    method OnUploadReadCompleted(id: nat, range: BlockRange, data: bytes) returns (outs: seq<Output>)
      modifies this`pending, this`uploaded
      ensures OnReadCompleted(old(View()), id, range, data, outs, View())
    {
      hide Listing, SendsOf, Sends, BytesTo;
      if range !in pending || pending[range].readId != id {
        return [];
      }
      var read := pending[range];
      pending := pending - {range};
      if !status.Uploads() {
        return [];
      }
      outs := ServeReaders(read.peers, range, data);
    }

    /** The loop of `on_upload_read_completed` over the waiting peers. */
    method ServeReaders(peers: set<SocketAddr>, range: BlockRange, data: bytes) returns (outs: seq<Output>)
      modifies this`uploaded
      ensures Sends(peers * registry.peers.Keys, M.Piece(range, data), outs)
      ensures uploaded == old(uploaded) + BytesTo(|peers * registry.peers.Keys|, |data|)
    {
      hide Listing, SendsOf, Sends, BytesTo;
      outs := [];
      var left := peers;
      ghost var order: seq<SocketAddr> := [];
      ghost var served: set<SocketAddr> := {};
      NothingSent(M.Piece(range, data), |data|);
      while left != {}
        invariant left <= peers && served == (peers - left) * registry.peers.Keys
        invariant Listing(order, served) && SendsOf(order, M.Piece(range, data), outs)
        invariant uploaded == old(uploaded) + BytesTo(|order|, |data|)
        decreases |left|
      {
        var addr :| addr in left;
        if addr in registry.peers {
          SendMore(order, served, M.Piece(range, data), outs, addr);
          BytesToMore(|order|, |data|);
          uploaded := uploaded + |data|;
          outs := outs + [SendToPeer(addr, M.Piece(range, data))];
          order, served := order + [addr], served + {addr};
        }
        left := left - {addr};
      }
      assert served == peers * registry.peers.Keys;
      SentAll(order, served, M.Piece(range, data), outs);
    }

    method OnTickPex() returns (outs: seq<Output>)
      ensures OnPexTick(View(), outs)
    {
      outs := PexMessages(registry.View());
    }

    /** `cancel_peer_uploads`: forgets a waiter everywhere and drops the reads nobody waits for. */
    method CancelPeerUploads(addr: SocketAddr) returns (outs: seq<Output>)
      modifies this`pending
      ensures pending == WithoutWaiter(old(pending), addr)
      ensures Cancels(old(pending), Orphaned(old(pending), addr), outs)
    {
      ghost var before := pending;
      outs := [];
      var left := pending.Keys;
      ghost var order: seq<BlockRange>, gone: set<BlockRange> := [], {};
      TrimStarts(before, addr);
      hide *;
      while left != {}
        invariant left <= before.Keys && Trimming(before, addr, left, pending) && gone !! left
        invariant forall r ::
          r in Orphaned(before, addr) <==> r in gone || (r in left && before[r].peers - {addr} == {})
        invariant Listing(order, gone) && CancelsOf(before, order, outs)
        decreases |left|
      {
        var range :| range in left;
        TrimAt(before, addr, left, pending, range);
        var read := pending[range];
        if read.peers - {addr} == {} {
          CancelMore(before, order, gone, outs, range);
          TrimDrop(before, addr, left, pending, range);
          outs := outs + [CancelUploadRead(read.readId)];
          order, gone := order + [range], gone + {range};
          pending := pending - {range};
        } else {
          TrimKeep(before, addr, left, pending, range);
          pending := pending[range := PendingRead(read.readId, read.peers - {addr})];
        }
        left := left - {range};
      }
      TrimEnds(before, addr, pending);
      assert gone == Orphaned(before, addr);
      CancelsIs(before, order, gone, outs);
    }

    method Disconnected(addr: SocketAddr) returns (outs: seq<Output>)
      modifies this`pending, registry, registry.availability, assignments
      ensures OnDisconnected(old(View()), addr, outs, View())
    {
      registry.Disconnected(addr);
      assignments.ReleasePeer(addr);
      outs := CancelPeerUploads(addr);
    }

    method DeclareInterest(addr: SocketAddr) returns (outs: seq<Output>)
      ensures outs == Interest(registry.View(), addr)
    {
      outs := if addr in registry.peers then [SendToPeer(addr, M.Interested)] else [];
    }

    method OnDiscovered(addrs: seq<SocketAddr>) returns (outs: seq<Output>)
      ensures outs == Discovered(View(), addrs)
    {
      if AllComplete(manager.States()) {
        return [];
      }
      outs := [];
      for i := 0 to |addrs|
        invariant outs == Unknown(registry.View(), addrs[..i])
      {
        assert addrs[..i + 1][..i] == addrs[..i];
        if addrs[i] !in registry.peers {
          outs := outs + [ConnectPeer(addrs[i])];
        }
      }
      assert addrs[..|addrs|] == addrs;
    }

    /** The one message that tells a new peer which pieces we have. */
    method Announcement(fast: bool) returns (message: M.Message)
      requires Valid()
      ensures Announces(manager.States(), fast, message)
    {
      if fast && AllComplete(manager.States()) {
        return M.HaveAll;
      }
      if fast && NoneComplete(manager.States()) {
        return M.HaveNone;
      }
      return M.Bitfield(manager.bitfield.data[..]);
    }

    method Accepted(addr: SocketAddr, direction: ConnectionDirection, id: PeerId, ext: PeerExtensions)
        returns (outs: seq<Output>)
      requires Valid()
      modifies registry, assignments
      ensures AcceptOutputs(manager.States(), addr, ext, outs)
      ensures View() == AfterAccept(old(View()), addr, direction, id, ext)
    {
      assignments.ReleasePeer(addr);
      registry.Connected(addr, id, direction, ext);
      var message := Announcement(ext.fast);
      var interest := DeclareInterest(addr);
      outs := [SendToPeer(addr, message)] + interest;
    }

    method OnPeerConnected(addr: SocketAddr, direction: ConnectionDirection, id: PeerId, ext: PeerExtensions)
        returns (outs: seq<Output>)
      requires Valid()
      modifies this`pending, registry, registry.availability, assignments
      ensures OnConnected(config, old(View()), addr, direction, id, ext, outs, View())
    {
      var active := ConnectionFor(registry.View(), id);
      if active == None {
        outs := Accepted(addr, direction, id, ext);
        return;
      }
      var (oldAddr, oldDirection) := active.value;
      if direction == oldDirection || direction != PreferredDirection(config.clientId, id) {
        return [DisconnectPeer(addr)];
      }
      var cancels := Disconnected(oldAddr);
      var greeting := Accepted(addr, direction, id, ext);
      outs := cancels + [DisconnectPeer(oldAddr)] + greeting;
      hide Cancels, AcceptOutputs, AfterGone, AfterAccept;
      assert outs[..|outs| - 3] == cancels && outs[|outs| - 2..] == greeting;
    }

    method OnLocalPiece(piece: nat, data: bytes) returns (outs: seq<Output>)
      requires Valid()
      modifies manager.pieces, manager.bitfield.data
      ensures Valid() && outs == [] && View() == AfterLocal(config, old(View()), piece, data)
    {
      hide FillLocal, UnreceivedBlocks, PiecesOk;
      FillBlocks(UnreceivedBlocks(config.metainfo, manager.States(), piece), data);
      outs := [];
    }

    method FillBlock(range: BlockRange, block: bytes)
      requires manager.Valid() && manager.metainfo == config.metainfo
      modifies manager.pieces, manager.bitfield.data
      ensures manager.Valid()
      ensures manager.States() == ReceiveInto(config.sha, config.metainfo, old(manager.States()), range, block).1
    {
      hide *;
      var _ := manager.ReceiveBlock(config.sha, range, block);
    }

    /** The loop of `on_local_piece`: it stops at the first block outside the local data. */
    method FillBlocks(blocks: seq<BlockRange>, data: bytes)
      requires manager.Valid() && manager.metainfo == config.metainfo
      modifies manager.pieces, manager.bitfield.data
      ensures manager.Valid()
      ensures manager.States() == FillLocal(config.sha, config.metainfo, old(manager.States()), blocks, data)
    {
      hide *;
      ghost var goal := FillLocal(config.sha, config.metainfo, manager.States(), blocks, data);
      var i := 0;
      assert blocks[0..] == blocks;
      while i < |blocks|
        invariant i <= |blocks| && manager.Valid()
        invariant goal == FillLocal(config.sha, config.metainfo, manager.States(), blocks[i..], data)
      {
        var range := blocks[i];
        FillLocalUnfold(config, manager.States(), blocks, i, data);
        if range.pieceOffset + range.len > |data| {
          return;
        }
        FillBlock(range, data[range.pieceOffset..range.pieceOffset + range.len]);
        i := i + 1;
      }
      assert blocks[i..] == [];
      FillNothing(config.sha, config.metainfo, manager.States(), data);
    }

    method CancelUpload(addr: SocketAddr, range: BlockRange) returns (outs: seq<Output>)
      modifies this`pending
      ensures outs == CancelReply(old(View()), addr, range) && View() == AfterCancel(old(View()), addr, range)
    {
      if range !in pending {
        return [];
      }
      var read := pending[range];
      pending := pending[range := PendingRead(read.readId, read.peers - {addr})];
      if read.peers - {addr} != {} {
        return [];
      }
      pending := pending - {range};
      assert pending == old(pending) - {range};
      return [CancelUploadRead(read.readId)];
    }

    method OnMessageRequest(addr: SocketAddr, range: BlockRange) returns (outs: seq<Output>)
      requires Valid()
      modifies this`pending, this`nextId
      ensures outs == RequestReply(config, old(View()), range)
      ensures View() == AfterRequest(config, old(View()), addr, range)
    {
      if !status.Uploads() {
        return [];
      }
      if !ValidUpload(config.metainfo, manager.States(), range) {
        return [];
      }
      var waiting := SumOf(Waiters(pending));
      if waiting >= MAX_PENDING_UPLOADS {
        return [];
      }
      if range in pending {
        pending := pending[range := PendingRead(pending[range].readId, pending[range].peers + {addr})];
        return [];
      }
      var id := nextId;
      nextId := nextId + 1;
      pending := pending[range := PendingRead(id, {addr})];
      return [ReadForUpload(id, range)];
    }

    /** A block that was asked of this peer: the request is resolved, the block stored and its bytes counted. */
    method TakeBlock(addr: SocketAddr, range: BlockRange, data: bytes)
        returns (r: Result<Option<CompletedPiece>, PieceManagers.Error>)
      requires Valid() && IsHolder(assignments.byPeer, range, addr)
      modifies this`downloaded, assignments, manager.pieces, manager.bitfield.data
      ensures Valid() && View() == AfterPiece(config, old(View()), addr, range, data)
      ensures (r, View().pieces) == Receipt(config, old(View()), addr, range, data)
    {
      hide ReceiveInto, PiecesOk, PieceManager.Valid, IsHolder, UnassignFrom, Count, AllComplete;
      assignments.Unassign(range, addr);
      r := manager.ReceiveBlock(config.sha, range, data);
      if r.Ok? {
        downloaded := downloaded + |data|;
      }
    }

    method OnMessagePiece(addr: SocketAddr, range: BlockRange, data: bytes) returns (outs: seq<Output>)
      requires Valid()
      modifies this`downloaded, assignments, manager.pieces, manager.bitfield.data
      ensures Valid() && View() == AfterPiece(config, old(View()), addr, range, data)
      ensures PieceOutputs(config, old(View()), addr, range, data, outs)
    {
      outs := [];
      if IsHolder(assignments.byPeer, range, addr) {
        hide ReceiveInto, PiecesOk, CompletionOutputs, PieceManager.Valid, IsHolder, AfterPiece, Receipt;
        var r := TakeBlock(addr, range, data);
        if r.Ok? && r.value.Some? {
          outs := ReportCompletion(r.value.value);
        }
      }
    }

    method ReportCompletion(done: CompletedPiece) returns (outs: seq<Output>)
      ensures CompletionOutputs(done, AllComplete(manager.States()), registry.seeders, outs)
    {
      hide Disconnects;
      outs := [Broadcast(M.Have(done.range.pieceIndex)), WritePiece(done.range, done.data)];
      if AllComplete(manager.States()) {
        var farewells := DisconnectAll(registry.seeders);
        outs := outs + [Completed] + farewells;
        assert outs[3..] == farewells;
      }
    }

    method OnExtensionMessage(addr: SocketAddr, extId: byte, payload: bytes) returns (outs: seq<Output>)
      ensures ExtensionOutputs(config, View(), addr, extId, payload, outs)
    {
      if extId == M.UT_METADATA_EXT_ID {
        match X.DecodeUtMetadata(payload) {
          case Ok(MetadataRequest(piece)) => outs := ServeMetadata(addr, piece);
          case _ => outs := [];
        }
      } else if extId == M.UT_PEX_EXT_ID {
        var decoded := X.DecodePexMessage(payload);
        if decoded.Err? {
          return [];
        }
        var addrs := ListOf(decoded.value);
        outs := OnDiscovered(addrs);
      } else {
        outs := [];
      }
    }

    method ServeMetadata(addr: SocketAddr, piece: nat) returns (outs: seq<Output>)
      ensures outs == MetadataReply(config, View(), addr, piece)
    {
      var peerExtId := PeerExtensionId(registry.View(), addr, UT_METADATA);
      if peerExtId == None {
        return [];
      }
      var data := InfoBytesBlock(config.metainfo, piece);
      var payload := X.EncodeUtMetadataMessage(X.MetadataData(piece, |config.metainfo.infoBytes|, data));
      return [SendToPeer(addr, M.Extension(peerExtId.value, payload))];
    }

    /** Total request slots free across the peers that unchoked us. */
    method FreeBudget() returns (n: nat)
      ensures n == Budget(View())
    {
      n := SumOf(SlotsTable(View()));
    }

    method Plan() returns (outs: seq<Output>)
      requires Valid()
      modifies assignments
      ensures Planned(config, old(View()), outs, View())
    {
      if !status.Downloads() {
        return [];
      }
      ghost var s := View();
      var budget := FreeBudget();
      var scene := SceneOf(config, View());
      ghost var rs;
      if budget == 0 {
        outs, rs := [], [];
      } else {
        var blocks := WorkList(scene);
        ghost var sweeps;
        outs, rs, sweeps := PlanRequests(scene, assignments, blocks, budget);
      }
      hide IsPlan, Budget;
      assert PlansWith(config, s, rs, outs, View());
    }

    /** The messages that are answered without any change of the swarm's own state. */
    method Reply(addr: SocketAddr, msg: M.Message) returns (outs: seq<Output>)
      requires Valid() && !(msg.Choke? || msg.Piece? || msg.Request? || msg.RejectRequest? || msg.Cancel?)
      ensures View() == AfterMessage(config, View(), addr, msg) && MessageOutputs(config, View(), addr, msg, outs)
    {
      hide PieceManager.Valid, Valid, PiecesOk, ExtensionOutputs;
      match msg {
        case Bitfield(_) | Have(_) | HaveAll | SuggestPiece(_) | AllowedFast(_) => outs := DeclareInterest(addr);
        case Interested => outs := [SendToPeer(addr, M.Unchoke)];
        case Extension(extId, payload) => outs := OnExtensionMessage(addr, extId, payload);
        case _ => outs := [];
      }
    }

    method ForgetRequests(addr: SocketAddr) returns (outs: seq<Output>)
      modifies assignments
      ensures outs == [] && View() == old(View()).(inFlight := Release(old(View()).inFlight, addr))
    {
      assignments.ReleasePeer(addr);
      outs := [];
    }

    method ForgetRequest(range: BlockRange, addr: SocketAddr) returns (outs: seq<Output>)
      modifies assignments
      ensures outs == [] && View() == old(View()).(inFlight := UnassignFrom(old(View()).inFlight, range, addr))
    {
      assignments.Unassign(range, addr);
      outs := [];
    }

    /** The handler of an accepted message, before any replanning. */
    method Handle(addr: SocketAddr, msg: M.Message) returns (outs: seq<Output>)
      requires Valid()
      modifies this`pending, this`nextId, this`downloaded, assignments, manager.pieces, manager.bitfield.data
      ensures Valid() && View() == AfterMessage(config, old(View()), addr, msg)
      ensures MessageOutputs(config, old(View()), addr, msg, outs)
    {
      hide PieceManager.Valid, Valid, View, PiecesOk, AfterPiece, AfterRequest, AfterCancel, PieceOutputs, Release,
        UnassignFrom, RequestReply, CancelReply, ExtensionOutputs, Interest, M.Message.NeedsFast;
      match msg {
        case Choke => outs := ForgetRequests(addr);
        case Piece(range, data) => outs := OnMessagePiece(addr, range, data);
        case Request(range) => outs := OnMessageRequest(addr, range);
        case RejectRequest(range) => outs := ForgetRequest(range, addr);
        case Cancel(range) => outs := CancelUpload(addr, range);
        case _ => outs := Reply(addr, msg);
      }
    }

    method OnMessageReceived(addr: SocketAddr, msg: M.Message) returns (outs: seq<Output>)
      requires Valid()
      modifies this, registry, registry.availability, assignments, manager.pieces, manager.bitfield.data
      ensures Valid() && OnMessage(config, old(View()), addr, msg, outs, View())
    {
      hide Handled, ApplyMessage, PiecesOk, PieceManager.Valid;
      var applied := registry.Apply(addr, msg);
      if applied.Err? {
        return if applied.error == UnknownPeer then [] else [DisconnectPeer(addr)];
      }
      ghost var k;
      outs, k := HandleAndPlan(addr, msg);
    }

    method HandleAndPlan(addr: SocketAddr, msg: M.Message) returns (outs: seq<Output>, ghost k: nat)
      requires Valid()
      modifies this, assignments, manager.pieces, manager.bitfield.data
      ensures Valid() && Handled(config, old(View()), addr, msg, k, outs, View())
    {
      hide PieceManager.Valid, Valid, PiecesOk, AfterMessage, MessageOutputs, Planned;
      outs := Handle(addr, msg);
      k := |outs|;
      if msg.AffectsScheduling() {
        var requests := Plan();
        assert (outs + requests)[..k] == outs && (outs + requests)[k..] == requests;
        outs := outs + requests;
      } else {
        assert outs[..k] == outs;
      }
    }

    method Step(input: Input) returns (outs: seq<Output>)
      requires Valid()
      modifies this, registry, registry.availability, assignments, manager.pieces, manager.bitfield.data
      ensures Valid() && Next(config, old(View()), input, outs, View())
    {
      hide PieceManager.Valid, Valid, PiecesOk, OnConnected, OnMessage, Planned, OnDisconnected, AfterLocal,
        OnReadCompleted, OnSetStatus;
      match input {
        case PeersDiscovered(addrs) => outs := OnDiscovered(addrs);
        case PeerConnected(id, direction, addr, ext) => outs := OnPeerConnected(addr, direction, id, ext);
        case PeerDisconnected(addr) => outs := Disconnected(addr);
        case MessageReceived(addr, msg) => outs := OnMessageReceived(addr, msg);
        case LocalPiece(piece, data) => outs := OnLocalPiece(piece, data);
        case UploadReadCompleted(id, range, data) => outs := OnUploadReadCompleted(id, range, data);
        case SetStatus(newStatus) => outs := OnSwarmCommand(newStatus);
        case OnTick(BlockTick) => outs := Plan();
        case OnTick(PexTick) => outs := OnTickPex();
      }
    }
  }

  /** `.sum()` over a table. */
  method SumOf<K(==, !new)>(m: map<K, nat>) returns (n: nat)
    ensures n == Total(m)
  {
    n := 0;
    var left := m;
    while left != map[]
      invariant n + Total(left) == Total(m)
      decreases |left|
    {
      var k :| k in left;
      TotalRemove(left, k);
      n := n + left[k];
      left := left - {k};
    }
  }

  method DisconnectAll(to: set<SocketAddr>) returns (outs: seq<Output>)
    ensures Disconnects(to, outs)
  {
    var order := ListOf(to);
    outs := seq(|order|, i requires 0 <= i < |order| => DisconnectPeer(order[i]));
    assert DisconnectsOf(order, outs);
  }

  /** Collects a hash set into a vector, in whatever order it is iterated. */
  method ListOf<T(==, !new)>(s: set<T>) returns (order: seq<T>)
    ensures Listing(order, s)
  {
    order := [];
    var left := s;
    while left != {}
      invariant left <= s && Listing(order, s - left)
      decreases |left|
    {
      var x :| x in left;
      ListingMore(order, s - left, x);
      order := order + [x];
      left := left - {x};
      assert s - left == s - (left + {x}) + {x};
    }
    assert s - left == s;
  }

  /** One turn of the loop over the local blocks. */
  lemma FillLocalUnfold(c: Config, states: seq<PieceState>, blocks: seq<BlockRange>, i: nat, data: bytes)
    requires PiecesOk(c.metainfo, states) && i < |blocks|
    ensures blocks[i].pieceOffset + blocks[i].len > |data| ==>
      FillLocal(c.sha, c.metainfo, states, blocks[i..], data) == states
    ensures blocks[i].pieceOffset + blocks[i].len <= |data| ==> (
      var b := blocks[i];
      var states' := ReceiveInto(c.sha, c.metainfo, states, b, data[b.pieceOffset..b.pieceOffset + b.len]).1;
      && PiecesOk(c.metainfo, states')
      && FillLocal(c.sha, c.metainfo, states, blocks[i..], data)
           == FillLocal(c.sha, c.metainfo, states', blocks[i + 1..], data))
  {
    var b := blocks[i];
    assert blocks[i..] == [b] + blocks[i + 1..];
    hide ReceiveInto;
    if b.pieceOffset + b.len <= |data| {
      hide FillLocal;
      FillStep(c.sha, c.metainfo, states, b, blocks[i + 1..], data);
    }
  }
}
