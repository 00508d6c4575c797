/** What every step of the swarm keeps. */
module SwarmInvariants {
  import opened Bytes
  import opened Peers
  import opened Torrents
  import opened PieceManagers
  import opened Assignments
  import opened Registries
  import opened SwarmEvents
  import opened Scheduling
  import opened SwarmSpec
  import M = Messages

  /**
   * Requests in flight: each is a real aligned block, asked of a registered peer that unchoked us or
   * allows the piece fast, and no peer is asked for more than 32 at once.
   */
  ghost predicate InFlightOk(m: Metainfo, reg: Registry, a: InFlight) {
    && (forall addr, b :: IsHolder(a, b, addr) ==> CanServe(reg, addr, b.pieceIndex) && RealBlock(m, b))
    && (forall addr :: |HeldBy(a, addr)| <= MAX_IN_FLIGHT_PER_PEER)
  }

  /** A pending read: numbered below the counter, waited for by registered peers, of verified bytes. */
  ghost predicate ReadOk(m: Metainfo, pieces: seq<PieceState>, registered: set<SocketAddr>, nextId: nat, r: BlockRange,
                         read: PendingRead)
    requires |pieces| == |m.pieces|
  {
    read.readId < nextId && read.peers != {} && read.peers <= registered && ValidUpload(m, pieces, r)
  }

  ghost predicate DistinctIds(rs: Reads) {
    forall q, r :: q in rs && r in rs && q != r ==> rs[q].readId != rs[r].readId
  }

  ghost predicate ReadsOk(m: Metainfo, pieces: seq<PieceState>, registered: set<SocketAddr>, uploads: bool, rs: Reads,
                          nextId: nat)
    requires |pieces| == |m.pieces|
  {
    && (forall r :: r in rs ==> ReadOk(m, pieces, registered, nextId, r, rs[r]))
    && DistinctIds(rs) && Total(Waiters(rs)) <= MAX_PENDING_UPLOADS
    && (!uploads ==> rs == map[])
  }

  ghost predicate Inv(c: Config, s: State): (ok: bool)
    ensures ok ==> Ready(c, s)
  {
    && Ready(c, s)
    && RegistryOk(s.reg, |c.metainfo.pieces|)
    && InFlightOk(c.metainfo, s.reg, s.inFlight)
    && ReadsOk(c.metainfo, s.pieces, s.reg.peers.Keys, s.status.Uploads(), s.pending, s.nextId)
  }

  // ---- Requests in flight ----

  lemma InFlightShrinks(m: Metainfo, reg: Registry, reg': Registry, a: InFlight, a': InFlight)
    requires InFlightOk(m, reg, a)
    requires forall addr :: HeldBy(a', addr) <= HeldBy(a, addr)
    requires forall addr, p :: CanServe(reg, addr, p) && HeldBy(a', addr) != {} ==> CanServe(reg', addr, p)
    ensures InFlightOk(m, reg', a')
  {
    hide RealBlock, CanServe;
    forall addr ensures |HeldBy(a', addr)| <= MAX_IN_FLIGHT_PER_PEER {
      Subset(HeldBy(a', addr), HeldBy(a, addr));
    }
    forall addr, b | IsHolder(a', b, addr) ensures CanServe(reg', addr, b.pieceIndex) && RealBlock(m, b) {
      assert IsHolder(a, b, addr);
    }
  }

  lemma {:induction false} Subset<T>(s: set<T>, t: set<T>)
    requires s <= t
    ensures |s| <= |t|
  {
    if s != {} {
      var x :| x in s;
      Subset(s - {x}, t - {x});
    }
  }

  /** A message from a peer never takes away another peer's, or, unless it is `Choke`, its own service. */
  lemma ApplyServes(reg: Registry, total: nat, addr: SocketAddr, msg: M.Message)
    requires ApplyMessage(reg, total, addr, msg).Ok?
    ensures var reg' := ApplyMessage(reg, total, addr, msg).value;
      forall a, p :: CanServe(reg, a, p) && (a != addr || !msg.Choke?) ==> CanServe(reg', a, p)
  {
    var reg' := ApplyMessage(reg, total, addr, msg).value;
    forall a, p | CanServe(reg, a, p) && (a != addr || !msg.Choke?) ensures CanServe(reg', a, p) {
      if a == addr {
        assert PeerCanServe(ApplyToPeer(reg.peers[a], msg), p);
      }
    }
  }

  lemma AssignKeepsInFlight(m: Metainfo, reg: Registry, a: InFlight, r: BlockRequest)
    requires InFlightOk(m, reg, a) && RealBlock(m, r.block) && Eligible(reg, a, r.block, r.addr)
    ensures InFlightOk(m, reg, AssignTo(a, r.block, r.addr))
  {
    hide RealBlock;
    var a' := AssignTo(a, r.block, r.addr);
    forall addr, b | IsHolder(a', b, addr) ensures CanServe(reg, addr, b.pieceIndex) && RealBlock(m, b) {
      assert IsHolder(a, b, addr) || (addr == r.addr && b == r.block);
    }
    forall addr ensures |HeldBy(a', addr)| <= MAX_IN_FLIGHT_PER_PEER {
      if addr == r.addr {
        assert HeldBy(a', addr) == HeldBy(a, addr) + {r.block};
      } else {
        assert HeldBy(a', addr) == HeldBy(a, addr);
      }
    }
  }

  /** A plan keeps the table well-formed at every point, and never repeats a request that is pending. */
  lemma {:induction false} PlanKeepsInFlight(sc: Scene, a: InFlight, rs: seq<BlockRequest>)
    requires InFlightOk(sc.m, sc.reg, a) && AllSound(sc, a, rs)
    ensures InFlightOk(sc.m, sc.reg, AssignAll(a, rs))
  {
    if rs != [] {
      var init, last := rs[..|rs| - 1], rs[|rs| - 1];
      AllSoundPrefix(sc, a, rs);
      PlanKeepsInFlight(sc, a, init);
      assert Sound(sc, AssignAll(a, init), last);
      hide InFlightOk, AllSound, AssignTo;
      AssignKeepsInFlight(sc.m, sc.reg, AssignAll(a, init), last);
    }
  }

  // ---- Pending reads ----

  /** Dropping reads and waiters keeps the table well-formed. */
  lemma ReadsShrink(m: Metainfo, pieces: seq<PieceState>, registered: set<SocketAddr>, uploads: bool, rs: Reads,
                    nextId: nat,
                    pieces': seq<PieceState>, registered': set<SocketAddr>, uploads': bool, rs': Reads)
    requires |pieces| == |pieces'| == |m.pieces| && ReadsOk(m, pieces, registered, uploads, rs, nextId)
    requires forall i :: 0 <= i < |pieces| && pieces[i].Complete? ==> pieces'[i].Complete?
    requires forall r :: r in rs' ==> r in rs && rs'[r].readId == rs[r].readId && rs'[r].peers <= rs[r].peers
    requires forall r :: r in rs' ==> rs'[r].peers != {} && rs'[r].peers <= registered'
    requires !uploads' ==> rs' == map[]
    ensures ReadsOk(m, pieces', registered', uploads', rs', nextId)
  {
    forall r | r in rs' ensures ReadOk(m, pieces', registered', nextId, r, rs'[r]) {
      assert ReadOk(m, pieces, registered, nextId, r, rs[r]);
    }
    forall r | r in rs' ensures Waiters(rs')[r] <= Waiters(rs)[r] {
      Subset(rs'[r].peers, rs[r].peers);
    }
    TotalMonotone(Waiters(rs'), Waiters(rs));
  }

  // ---- Steps ----

  lemma GoneKeeps(c: Config, s: State, addr: SocketAddr)
    requires Inv(c, s)
    ensures Inv(c, AfterGone(s, addr)) && addr !in AfterGone(s, addr).reg.peers
  {
    var s' := AfterGone(s, addr);
    hide RegistryOk, PiecesOk;
    DisconnectedKeeps(s.reg, |c.metainfo.pieces|, addr);
    InFlightShrinks(c.metainfo, s.reg, s'.reg, s.inFlight, s'.inFlight);
    ReadsShrink(c.metainfo, s.pieces, s.reg.peers.Keys, s.status.Uploads(), s.pending, s.nextId,
                s.pieces, s'.reg.peers.Keys, s.status.Uploads(), s'.pending);
  }

  lemma AcceptKeeps(c: Config, s: State, addr: SocketAddr, direction: ConnectionDirection, id: PeerId,
                    ext: PeerExtensions)
    requires Inv(c, s) && forall a :: a in s.reg.peers && a != addr ==> s.reg.peers[a].id != id
    ensures Inv(c, AfterAccept(s, addr, direction, id, ext))
  {
    var s' := AfterAccept(s, addr, direction, id, ext);
    ConnectedKeeps(s.reg, |c.metainfo.pieces|, addr, id, direction, ext);
    hide RegistryOk, PiecesOk;
    InFlightShrinks(c.metainfo, s.reg, s'.reg, s.inFlight, s'.inFlight);
    ReadsShrink(c.metainfo, s.pieces, s.reg.peers.Keys, s.status.Uploads(), s.pending, s.nextId,
                s.pieces, s'.reg.peers.Keys, s.status.Uploads(), s'.pending);
  }

  /** Whatever `on_connected` replaces is the only other connection of that identity. */
  lemma JudgedUnique(c: Config, s: State, addr: SocketAddr, direction: ConnectionDirection, id: PeerId)
    requires Inv(c, s)
    ensures var v := Judge(c.clientId, s.reg, direction, id);
      && (v.Accept? ==> forall a :: a in s.reg.peers ==> s.reg.peers[a].id != id)
      && (v.Replace? ==>
            forall a :: a in AfterGone(s, v.previous).reg.peers ==> AfterGone(s, v.previous).reg.peers[a].id != id)
  {
  }

  lemma ConnectionKeeps(c: Config, s: State, addr: SocketAddr, direction: ConnectionDirection, id: PeerId,
                        ext: PeerExtensions, outs: seq<Output>, s': State)
    requires Inv(c, s) && OnConnected(c, s, addr, direction, id, ext, outs, s')
    ensures Inv(c, s')
  {
    JudgedUnique(c, s, addr, direction, id);
    hide Inv, AfterGone, AfterAccept, Judge;
    match Judge(c.clientId, s.reg, direction, id)
    case Reject =>
    case Accept => AcceptKeeps(c, s, addr, direction, id, ext);
    case Replace(prev) =>
      GoneKeeps(c, s, prev);
      AcceptKeeps(c, AfterGone(s, prev), addr, direction, id, ext);
  }

  lemma PlanKeeps(c: Config, s: State, outs: seq<Output>, s': State)
    requires Inv(c, s) && Planned(c, s, outs, s')
    ensures Inv(c, s')
  {
    if s.status.Downloads() {
      var rs :| PlansWith(c, s, rs, outs, s');
      hide AllSound, InFlightOk, RegistryOk, ReadsOk, PiecesOk, Budget, AssignAll, RequestOutputs;
      PlanKeepsInFlight(SceneOf(c, s), s.inFlight, rs);
    }
  }

  lemma LocalKeeps(c: Config, s: State, piece: nat, data: bytes)
    requires Inv(c, s)
    ensures Inv(c, AfterLocal(c, s, piece, data))
  {
    var s' := AfterLocal(c, s, piece, data);
    UnreceivedAreMissing(c.metainfo, s.pieces, piece);
    hide InFlightOk, RegistryOk, FillLocal, UnreceivedBlocks, PiecesOk;
    FillLocalFrame(c.sha, c.metainfo, s.pieces, UnreceivedBlocks(c.metainfo, s.pieces, piece), data, piece);
    assert |s'.pieces| == |s.pieces|;
    ReadsShrink(c.metainfo, s.pieces, s.reg.peers.Keys, s.status.Uploads(), s.pending, s.nextId,
                s'.pieces, s.reg.peers.Keys, s.status.Uploads(), s.pending);
  }

  lemma StatusKeeps(c: Config, s: State, status: SwarmStatus, outs: seq<Output>, s': State)
    requires Inv(c, s) && OnSetStatus(s, status, outs, s')
    ensures Inv(c, s')
  {
    hide InFlightOk, RegistryOk, PiecesOk, Cancels;
    ReadsShrink(c.metainfo, s.pieces, s.reg.peers.Keys, s.status.Uploads(), s.pending, s.nextId,
                s.pieces, s.reg.peers.Keys, status.Uploads(), s'.pending);
  }

  lemma ReadCompletedKeeps(c: Config, s: State, id: nat, range: BlockRange, data: bytes, outs: seq<Output>, s': State)
    requires Inv(c, s) && OnReadCompleted(s, id, range, data, outs, s')
    ensures Inv(c, s')
  {
    hide InFlightOk, RegistryOk, PiecesOk, Sends;
    ReadsShrink(c.metainfo, s.pieces, s.reg.peers.Keys, s.status.Uploads(), s.pending, s.nextId,
                s.pieces, s.reg.peers.Keys, s.status.Uploads(), s'.pending);
  }

  // ---- Messages ----

  /** A request is counted against the limit before it joins or starts a read. */
  lemma RequestKeeps(c: Config, s: State, addr: SocketAddr, range: BlockRange)
    requires Inv(c, s) && addr in s.reg.peers
    ensures Inv(c, AfterRequest(c, s, addr, range))
  {
    var s' := AfterRequest(c, s, addr, range);
    hide InFlightOk, RegistryOk, PiecesOk, ValidUpload;
    if !FateOf(c, s, range).Ignored? {
      WaitersAdd(s.pending, s'.pending, range, addr);
    }
  }

  lemma WaitersAdd(rs: Reads, rs': Reads, range: BlockRange, addr: SocketAddr)
    requires range in rs' && rs' == rs[range := rs'[range]]
    requires rs'[range].peers == (if range in rs then rs[range].peers else {}) + {addr}
    ensures Total(Waiters(rs')) <= Total(Waiters(rs)) + 1
  {
    var before := if range in rs then |rs[range].peers| else 0;
    assert Waiters(rs') == Waiters(rs)[range := |rs'[range].peers|];
    TotalInsert(Waiters(rs), range, |rs'[range].peers|);
    if range in rs {
      TotalRemove(Waiters(rs), range);
    } else {
      assert Waiters(rs) - {range} == Waiters(rs);
    }
  }

  lemma CancelKeeps(c: Config, s: State, addr: SocketAddr, range: BlockRange)
    requires Inv(c, s)
    ensures Inv(c, AfterCancel(s, addr, range))
  {
    var s' := AfterCancel(s, addr, range);
    hide InFlightOk, RegistryOk, PiecesOk;
    ReadsShrink(c.metainfo, s.pieces, s.reg.peers.Keys, s.status.Uploads(), s.pending, s.nextId,
                s.pieces, s.reg.peers.Keys, s.status.Uploads(), s'.pending);
  }

  lemma PieceKeeps(c: Config, s: State, addr: SocketAddr, range: BlockRange, data: bytes)
    requires Inv(c, s)
    ensures Inv(c, AfterPiece(c, s, addr, range, data))
  {
    var s' := AfterPiece(c, s, addr, range, data);
    ReceiveIntoKeeps(c.sha, c.metainfo, s.pieces, range, data);
    hide RegistryOk, PiecesOk, ReceiveInto;
    InFlightShrinks(c.metainfo, s.reg, s.reg, s.inFlight, s'.inFlight);
    ReadsShrink(c.metainfo, s.pieces, s.reg.peers.Keys, s.status.Uploads(), s.pending, s.nextId,
                s'.pieces, s.reg.peers.Keys, s.status.Uploads(), s.pending);
  }

  /** The registry update alone, except that `Choke` is completed by dropping the peer's requests. */
  lemma ApplyKeepsInv(c: Config, s: State, addr: SocketAddr, msg: M.Message)
    requires Inv(c, s) && ApplyMessage(s.reg, |c.metainfo.pieces|, addr, msg).Ok?
    ensures var s1 := s.(reg := ApplyMessage(s.reg, |c.metainfo.pieces|, addr, msg).value);
      && Inv(c, if msg.Choke? then s1.(inFlight := Release(s.inFlight, addr)) else s1)
      && addr in s1.reg.peers && Ready(c, s1)
  {
    var reg := ApplyMessage(s.reg, |c.metainfo.pieces|, addr, msg).value;
    ApplyKeeps(s.reg, |c.metainfo.pieces|, addr, msg);
    ApplyServes(s.reg, |c.metainfo.pieces|, addr, msg);
    hide RegistryOk, PiecesOk, CanServe, ReadsOk;
    assert addr in reg.peers;
    InFlightShrinks(c.metainfo, s.reg, reg, s.inFlight, if msg.Choke? then Release(s.inFlight, addr) else s.inFlight);
  }

  lemma AfterMessageKeeps(c: Config, s: State, addr: SocketAddr, msg: M.Message)
    requires Inv(c, s) && ApplyMessage(s.reg, |c.metainfo.pieces|, addr, msg).Ok?
    ensures var s1 := s.(reg := ApplyMessage(s.reg, |c.metainfo.pieces|, addr, msg).value);
      Ready(c, s1) && Inv(c, AfterMessage(c, s1, addr, msg))
  {
    hide *;
    ApplyKeepsInv(c, s, addr, msg);
    HandlerKeeps(c, s.(reg := ApplyMessage(s.reg, |c.metainfo.pieces|, addr, msg).value), addr, msg);
  }

  lemma HandlerKeeps(c: Config, s: State, addr: SocketAddr, msg: M.Message)
    requires Ready(c, s) && addr in s.reg.peers
    requires Inv(c, if msg.Choke? then s.(inFlight := Release(s.inFlight, addr)) else s)
    ensures Inv(c, AfterMessage(c, s, addr, msg))
  {
    hide Inv, AfterPiece, AfterRequest, AfterCancel, Ready;
    match msg
    case Request(range) => RequestKeeps(c, s, addr, range);
    case Cancel(range) => CancelKeeps(c, s, addr, range);
    case Piece(range, data) => PieceKeeps(c, s, addr, range, data);
    case RejectRequest(range) => RejectKeeps(c, s, addr, range);
    case _ =>
  }

  lemma RejectKeeps(c: Config, s: State, addr: SocketAddr, range: BlockRange)
    requires Inv(c, s)
    ensures Inv(c, s.(inFlight := UnassignFrom(s.inFlight, range, addr)))
  {
    hide RegistryOk, PiecesOk, ReadsOk;
    InFlightShrinks(c.metainfo, s.reg, s.reg, s.inFlight, UnassignFrom(s.inFlight, range, addr));
  }

  lemma MessageKeeps(c: Config, s: State, addr: SocketAddr, msg: M.Message, outs: seq<Output>, s': State)
    requires Inv(c, s) && OnMessage(c, s, addr, msg, outs, s')
    ensures Inv(c, s')
  {
    var applied := ApplyMessage(s.reg, |c.metainfo.pieces|, addr, msg);
    if applied.Ok? {
      var k: nat :| Handled(c, s.(reg := applied.value), addr, msg, k, outs, s');
      AfterMessageKeeps(c, s, addr, msg);
      HandledKeeps(c, s.(reg := applied.value), addr, msg, k, outs, s');
    }
  }

  lemma HandledKeeps(c: Config, s: State, addr: SocketAddr, msg: M.Message, k: nat, outs: seq<Output>, s': State)
    requires Ready(c, s) && Handled(c, s, addr, msg, k, outs, s') && Inv(c, AfterMessage(c, s, addr, msg))
    ensures Inv(c, s')
  {
    hide Inv, AfterMessage, MessageOutputs, Planned;
    if msg.AffectsScheduling() {
      PlanKeeps(c, AfterMessage(c, s, addr, msg), outs[k..], s');
    }
  }

  /** Every step keeps the invariant. */
  lemma NextKeeps(c: Config, s: State, input: Input, outs: seq<Output>, s': State)
    requires Inv(c, s) && Next(c, s, input, outs, s')
    ensures Inv(c, s')
  {
    hide Inv, OnConnected, OnMessage, Planned, AfterGone, AfterLocal, OnReadCompleted, OnSetStatus, OnPexTick,
      Discovered;
    match input
    case PeersDiscovered(_) =>
    case PeerConnected(id, direction, addr, ext) => ConnectionKeeps(c, s, addr, direction, id, ext, outs, s');
    case PeerDisconnected(addr) => GoneKeeps(c, s, addr);
    case MessageReceived(addr, msg) => MessageKeeps(c, s, addr, msg, outs, s');
    case LocalPiece(piece, data) => LocalKeeps(c, s, piece, data);
    case UploadReadCompleted(id, range, data) => ReadCompletedKeeps(c, s, id, range, data, outs, s');
    case SetStatus(status) => StatusKeeps(c, s, status, outs, s');
    case OnTick(BlockTick) => PlanKeeps(c, s, outs, s');
    case OnTick(PexTick) =>
  }

  lemma InitInv(c: Config, s: State)
    requires IsInit(c, s)
    ensures Inv(c, s)
  {
    EmptyOk(|c.metainfo.pieces|);
    forall i | 0 <= i < |s.pieces|
      ensures PieceLen(c.metainfo, i) > 0 && PieceOk(PieceLen(c.metainfo, i), s.pieces[i]) {
      PieceInterval(c.metainfo, i);
      NewPieceOk(PieceLen(c.metainfo, i));
    }
    assert Waiters(map[]) == map[];
  }
}
