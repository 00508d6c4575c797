/** Two clients that open a connection to each other at the same time keep the same one (swarm.rs, `on_connected`). */
module SimultaneousOpen {
  import opened Wrappers
  import opened Bytes
  import opened Listings
  import opened Peers
  import opened Registries
  import opened SwarmEvents
  import opened SwarmSpec
  import opened SwarmInvariants
  import opened Runs
  import opened PieceManagers
  import M = Messages
  import X = ExtensionMessages

  function Opposite(d: ConnectionDirection): ConnectionDirection {
    match d
    case Inbound => Outbound
    case Outbound => Inbound
  }

  /** The two ends of a pair of clients prefer opposite directions, that is the same connection. */
  lemma PreferencesMeet(a: PeerId, b: PeerId)
    requires a != b
    ensures PreferredDirection(a, b) == Opposite(PreferredDirection(b, a))
  {
    LessTotal(a, b);
  }

  /**
   * One side's view of the pair: the other client, and the local addresses of the connection this side
   * prefers and of the other one.
   */
  datatype Link = Link(them: PeerId, winner: SocketAddr, loser: SocketAddr)

  function Preference(c: Config, k: Link): ConnectionDirection { PreferredDirection(c.clientId, k.them) }

  // ---- One side ----

  /**
   * The identity index holds no entry that spoils the preferred connection: an entry of the other client, if there
   * is one, is of the other direction and at another address, and an entry of anyone else at the address of the
   * preferred connection has the direction that its own duplicates lose against. Entries may be stale: nobody need
   * be registered where they point.
   */
  ghost predicate Untangled(c: Config, r: Registry, k: Link) {
    && (k.them in r.byId ==> r.byId[k.them].0 != k.winner && r.byId[k.them].1 == Opposite(Preference(c, k)))
    && Harmless(c, r, k)
  }

  ghost predicate Harmless(c: Config, r: Registry, k: Link) {
    forall id :: id in r.byId && id != k.them && r.byId[id].0 == k.winner ==>
      r.byId[id].1 == PreferredDirection(c.clientId, id)
  }

  /**
   * Before the preferred connection is reported the index does not spoil it; afterwards the preferred connection is
   * the one, whatever happens to the other.
   */
  ghost predicate Linked(c: Config, r: Registry, k: Link, seen: bool) {
    && k.winner != k.loser && Indexed(r)
    && if seen then
         && ConnectionFor(r, k.them) == Some((k.winner, Preference(c, k)))
         && k.winner in r.peers && r.peers[k.winner].id == k.them && Harmless(c, r, k)
       else Untangled(c, r, k)
  }

  /** The block that completes the torrent: it was asked of this peer, and its piece is the last one missing. */
  ghost predicate LastBlock(c: Config, s: State, addr: SocketAddr, range: BlockRange, data: bytes)
    requires Ready(c, s)
  {
    var (r, pieces) := Receipt(c, s, addr, range, data);
    r.Ok? && r.value.Some? && AllComplete(pieces)
  }

  /**
   * When a step closes the connection at `w`, told from the input and the state alone: duplicate resolution
   * rejects or replaces it, its peer sends a fast message without having negotiated that, or the torrent becomes
   * complete while its peer is a seeder.
   */
  ghost predicate Closes(c: Config, s: State, input: Input, w: SocketAddr)
    requires Ready(c, s)
  {
    match input
    case PeerConnected(id, direction, addr, _) =>
      (match Judge(c.clientId, s.reg, direction, id)
       case Accept => false
       case Reject => addr == w
       case Replace(prev) => prev == w)
    case MessageReceived(addr, msg) =>
      && addr in s.reg.peers
      && if msg.NeedsFast() && !s.reg.peers[addr].fast then addr == w
         else
           && msg.Piece? && LastBlock(c, s, addr, msg.range, msg.data)
           && w in ApplyMessage(s.reg, |c.metainfo.pieces|, addr, msg).value.seeders
    case _ => false
  }

  /** A step outputs a disconnection of `w` exactly if it closes `w` in that sense. */
  lemma ClosesIff(c: Config, s: State, input: Input, outs: seq<Output>, s': State, w: SocketAddr)
    requires Ready(c, s) && Next(c, s, input, outs, s')
    ensures DisconnectPeer(w) in outs <==> Closes(c, s, input, w)
  {
    hide Ready, OnConnected, OnMessage, Planned, OnPexTick, Cancels, Sends, LastBlock, Judge, ApplyMessage;
    match input
    case PeersDiscovered(addrs) => DiscoveryOnlyConnects(s.reg, addrs);
    case PeerConnected(id, direction, addr, ext) => ConnectionClosesIff(c, s, addr, direction, id, ext, outs, s', w);
    case PeerDisconnected(addr) => CancelsOnlyCancel(s.pending, Orphaned(s.pending, addr), outs);
    case MessageReceived(addr, msg) => MessageClosesIff(c, s, addr, msg, outs, s', w);
    case LocalPiece(_, _) =>
    case UploadReadCompleted(id, range, data) =>
      if outs != [] {
        SendsOnlySend(s.pending[range].peers * s.reg.peers.Keys, M.Piece(range, data), outs);
      }
    case SetStatus(status) =>
      if !status.Uploads() {
        CancelsOnlyCancel(s.pending, s.pending.Keys, outs);
      }
    case OnTick(BlockTick) => PlannedClosesNothing(c, s, outs, s');
    case OnTick(PexTick) => PexOnlyExtends(s, outs);
  }

  lemma ConnectionClosesIff(c: Config, s: State, addr: SocketAddr, direction: ConnectionDirection, id: PeerId,
                            ext: PeerExtensions, outs: seq<Output>, s': State, w: SocketAddr)
    requires Ready(c, s) && OnConnected(c, s, addr, direction, id, ext, outs, s')
    ensures DisconnectPeer(w) in outs <==> Closes(c, s, PeerConnected(id, direction, addr, ext), w)
  {
    hide Judge, Cancels, AcceptOutputs, Ready, AfterGone, AfterAccept;
    match Judge(c.clientId, s.reg, direction, id)
    case Reject =>
    case Accept => NoDisconnects(s.pieces, addr, ext, outs);
    case Replace(prev) =>
      NoOtherDisconnects(s.pending, Orphaned(s.pending, prev), prev, s.pieces, addr, ext, outs);
      assert outs[|outs| - 3] == DisconnectPeer(prev);
  }

  lemma PlannedClosesNothing(c: Config, s: State, outs: seq<Output>, s': State)
    requires Planned(c, s, outs, s')
    ensures forall o :: o in outs ==> !o.DisconnectPeer?
  {
    if s.status.Downloads() {
      var rs :| PlansWith(c, s, rs, outs, s');
      PlanUploadsNothing(rs);
    }
  }

  lemma MessageClosesIff(c: Config, s: State, addr: SocketAddr, msg: M.Message, outs: seq<Output>, s': State,
                         w: SocketAddr)
    requires Ready(c, s) && OnMessage(c, s, addr, msg, outs, s')
    ensures DisconnectPeer(w) in outs <==> Closes(c, s, MessageReceived(addr, msg), w)
  {
    hide Handled, Ready, LastBlock;
    var applied := ApplyMessage(s.reg, |c.metainfo.pieces|, addr, msg);
    if applied.Ok? {
      var s1 := s.(reg := applied.value);
      SameReady(c, s, s1);
      var n: nat :| Handled(c, s1, addr, msg, n, outs, s');
      hide ApplyMessage;
      HandledClosesIff(c, s1, addr, msg, n, outs, s', w);
      if msg.Piece? {
        SameLastBlock(c, s, s1, addr, msg);
      }
    }
  }

  lemma SameLastBlock(c: Config, s: State, s1: State, addr: SocketAddr, msg: M.Message)
    requires Ready(c, s) && Ready(c, s1) && s1 == s.(reg := s1.reg) && msg.Piece?
    ensures LastBlock(c, s, addr, msg.range, msg.data) == LastBlock(c, s1, addr, msg.range, msg.data)
  {
    hide ReceiveInto, PiecesOk;
  }

  lemma HandledClosesIff(c: Config, s: State, addr: SocketAddr, msg: M.Message, n: nat, outs: seq<Output>, s': State,
                         w: SocketAddr)
    requires Ready(c, s) && Handled(c, s, addr, msg, n, outs, s')
    ensures DisconnectPeer(w) in outs
      <==> msg.Piece? && LastBlock(c, s, addr, msg.range, msg.data) && w in s.reg.seeders
  {
    hide MessageOutputs, AfterMessage, Planned, Ready, LastBlock;
    HandlerClosesIff(c, s, addr, msg, outs[..n], w);
    assert outs == outs[..n] + outs[n..];
    if msg.AffectsScheduling() {
      PlannedClosesNothing(c, AfterMessage(c, s, addr, msg), outs[n..], s');
    } else {
      assert outs[n..] == [];
    }
  }

  lemma HandlerClosesIff(c: Config, s: State, addr: SocketAddr, msg: M.Message, outs: seq<Output>, w: SocketAddr)
    requires Ready(c, s) && MessageOutputs(c, s, addr, msg, outs)
    ensures DisconnectPeer(w) in outs
      <==> msg.Piece? && LastBlock(c, s, addr, msg.range, msg.data) && w in s.reg.seeders
  {
    hide PieceOutputs, ExtensionOutputs, Ready, FateOf, LastBlock;
    match msg
    case Piece(range, data) => PieceClosesIff(c, s, addr, range, data, outs, w);
    case Extension(extId, payload) => ExtensionClosesNothing(c, s, addr, extId, payload, outs);
    case _ =>
  }

  lemma ExtensionClosesNothing(c: Config, s: State, addr: SocketAddr, extId: byte, payload: bytes, outs: seq<Output>)
    requires ExtensionOutputs(c, s, addr, extId, payload, outs)
    ensures forall o :: o in outs ==> !o.DisconnectPeer?
  {
    hide X.DecodePex, X.DecodeUtMetadata;
    if extId == M.UT_PEX_EXT_ID && X.DecodePex(payload).Ok? {
      var order :| Listing(order, X.DecodePex(payload).value) && outs == Discovered(s, order);
      DiscoveryOnlyConnects(s.reg, order);
    }
  }

  lemma PieceClosesIff(c: Config, s: State, addr: SocketAddr, range: BlockRange, data: bytes, outs: seq<Output>,
                       w: SocketAddr)
    requires Ready(c, s) && PieceOutputs(c, s, addr, range, data, outs)
    ensures DisconnectPeer(w) in outs <==> LastBlock(c, s, addr, range, data) && w in s.reg.seeders
  {
    hide CompletionOutputs, Receipt;
    var (r, pieces) := Receipt(c, s, addr, range, data);
    if r.Ok? && r.value.Some? {
      CompletionClosesIff(r.value.value, AllComplete(pieces), s.reg.seeders, outs, w);
    }
  }

  lemma CompletionClosesIff(done: CompletedPiece, last: bool, seeders: set<SocketAddr>, outs: seq<Output>,
                            w: SocketAddr)
    requires CompletionOutputs(done, last, seeders, outs)
    ensures DisconnectPeer(w) in outs <==> last && w in seeders
  {
    if last {
      var order :| Listing(order, seeders) && DisconnectsOf(order, outs[3..]);
      assert outs == [outs[0], outs[1], outs[2]] + outs[3..];
      if w in seeders {
        var i :| 0 <= i < |order| && order[i] == w;
        assert outs[3..][i] == DisconnectPeer(w);
      }
    } else {
      assert outs == [outs[0], outs[1]];
    }
  }

  /**
   * What may happen at one side: the two connections are reported with their directions, no other client connects
   * from the address of the preferred connection, nothing but duplicate resolution closes that connection, and it
   * is lost only after one side closed it.
   */
  ghost predicate Enabled(c: Config, s: State, k: Link, closed: bool, input: Input)
    requires Ready(c, s)
  {
    match input
    case PeerConnected(id, direction, addr, _) => Connects(c, k, id, direction, addr)
    case PeerDisconnected(addr) => addr == k.winner ==> closed
    case _ => !Closes(c, s, input, k.winner)
  }

  ghost predicate Connects(c: Config, k: Link, id: PeerId, direction: ConnectionDirection, addr: SocketAddr) {
    if id == k.them then
      || (addr == k.winner && direction == Preference(c, k))
      || (addr == k.loser && direction == Opposite(Preference(c, k)))
    else addr != k.winner
  }

  /** A report of the preferred connection that both ends already use would make this side close it. */
  lemma SecondReportCloses(c: Config, s: State, k: Link, ext: PeerExtensions)
    requires Ready(c, s) && Linked(c, s.reg, k, true)
    ensures Closes(c, s, PeerConnected(k.them, Preference(c, k), k.winner, ext), k.winner)
  {
    hide Ready;
  }

  ghost predicate Reports(k: Link, input: Input) {
    input.PeerConnected? && input.id == k.them && input.addr == k.winner
  }

  lemma GoneLinked(c: Config, r: Registry, k: Link, seen: bool, addr: SocketAddr)
    requires Linked(c, r, k, seen) && addr != k.winner
    ensures Linked(c, AfterDisconnected(r, addr), k, seen)
    ensures forall id :: id in AfterDisconnected(r, addr).byId ==> id in r.byId
  {
  }

  lemma OtherAccepted(c: Config, r: Registry, k: Link, seen: bool, addr: SocketAddr, id: PeerId,
                      direction: ConnectionDirection, ext: PeerExtensions)
    requires Linked(c, r, k, seen) && id != k.them && addr != k.winner
    requires forall a :: a in r.peers && a != addr ==> r.peers[a].id != id
    ensures Linked(c, AfterConnected(r, addr, id, direction, ext), k, seen)
  {
  }

  lemma WinnerAccepted(c: Config, r: Registry, k: Link, seen: bool, ext: PeerExtensions)
    requires Linked(c, r, k, seen) && forall a :: a in r.peers && a != k.winner ==> r.peers[a].id != k.them
    ensures Linked(c, AfterConnected(r, k.winner, k.them, Preference(c, k), ext), k, true)
  {
  }

  lemma LoserAccepted(c: Config, r: Registry, k: Link, ext: PeerExtensions)
    requires Linked(c, r, k, false) && k.them !in r.byId
    ensures Linked(c, AfterConnected(r, k.loser, k.them, Opposite(Preference(c, k)), ext), k, false)
  {
  }

  lemma AppliedLinked(c: Config, r: Registry, k: Link, seen: bool, total: nat, addr: SocketAddr, msg: M.Message)
    requires Linked(c, r, k, seen) && ApplyMessage(r, total, addr, msg).Ok?
    ensures Linked(c, ApplyMessage(r, total, addr, msg).value, k, seen)
  {
    assert ApplyToPeer(r.peers[addr], msg).id == r.peers[addr].id;
  }

  /** What duplicate resolution decides about the connections of the pair. */
  lemma Judged(c: Config, r: Registry, k: Link, seen: bool, addr: SocketAddr, direction: ConnectionDirection,
               id: PeerId)
    requires Linked(c, r, k, seen)
    ensures var v := Judge(c.clientId, r, direction, id);
      && (v.Replace? ==> v.previous != k.winner && id in r.byId && r.byId[id].0 == v.previous)
      && (v.Accept? ==> id !in r.byId)
      && (id == k.them && direction == Preference(c, k) ==> (seen <==> v.Reject?))
      && (id == k.them && direction == Opposite(Preference(c, k)) ==> !v.Replace? && (v.Accept? ==> !seen))
  {
  }

  lemma NobodyElse(r: Registry, id: PeerId)
    requires Indexed(r)
    ensures id !in r.byId ==> forall a :: a in r.peers ==> r.peers[a].id != id
    ensures id in r.byId ==> forall a :: a in AfterDisconnected(r, r.byId[id].0).peers ==>
      AfterDisconnected(r, r.byId[id].0).peers[a].id != id
  {
  }

  lemma ConnectionLinked(c: Config, s: State, addr: SocketAddr, direction: ConnectionDirection, id: PeerId,
                         ext: PeerExtensions, outs: seq<Output>, s': State, k: Link, seen: bool)
    requires Linked(c, s.reg, k, seen) && OnConnected(c, s, addr, direction, id, ext, outs, s')
    requires Connects(c, k, id, direction, addr)
    requires !(seen && id == k.them && addr == k.winner)
    ensures Linked(c, s'.reg, k, seen || (id == k.them && addr == k.winner))
    ensures DisconnectPeer(k.winner) !in outs
  {
    Judged(c, s.reg, k, seen, addr, direction, id);
    NobodyElse(s.reg, id);
    hide Judge, Cancels, AcceptOutputs, Linked;
    match Judge(c.clientId, s.reg, direction, id)
    case Reject => RejectedLinked(c, s, addr, direction, id, k, seen);
    case Accept =>
      NoDisconnects(s.pieces, addr, ext, outs);
      AcceptLinked(c, s.reg, addr, direction, id, ext, k, seen);
    case Replace(prev) =>
      NoOtherDisconnects(s.pending, Orphaned(s.pending, prev), prev, s.pieces, addr, ext, outs);
      GoneLinked(c, s.reg, k, seen, prev);
      NobodyElse(s.reg, id);
      ReplaceLinked(c, AfterGone(s, prev).reg, addr, direction, id, ext, k, seen);
  }

  lemma RejectedLinked(c: Config, s: State, addr: SocketAddr, direction: ConnectionDirection, id: PeerId, k: Link,
                       seen: bool)
    requires Linked(c, s.reg, k, seen) && Judge(c.clientId, s.reg, direction, id).Reject?
    requires addr == k.winner ==> id == k.them && direction == Preference(c, k) && !seen
    ensures addr != k.winner
  {
    Judged(c, s.reg, k, seen, addr, direction, id);
  }

  lemma AcceptLinked(c: Config, r: Registry, addr: SocketAddr, direction: ConnectionDirection, id: PeerId,
                     ext: PeerExtensions, k: Link, seen: bool)
    requires Linked(c, r, k, seen) && id !in r.byId && (id == k.them ==> !seen)
    requires Connects(c, k, id, direction, addr)
    ensures Linked(c, AfterConnected(r, addr, id, direction, ext), k, seen || (id == k.them && addr == k.winner))
  {
    if id != k.them {
      OtherAccepted(c, r, k, seen, addr, id, direction, ext);
    } else if addr == k.winner {
      WinnerAccepted(c, r, k, seen, ext);
    } else {
      LoserAccepted(c, r, k, ext);
    }
  }

  lemma ReplaceLinked(c: Config, r: Registry, addr: SocketAddr, direction: ConnectionDirection, id: PeerId,
                      ext: PeerExtensions, k: Link, seen: bool)
    requires Linked(c, r, k, seen) && forall a :: a in r.peers ==> r.peers[a].id != id
    requires Connects(c, k, id, direction, addr) && (id == k.them ==> addr == k.winner)
    ensures Linked(c, AfterConnected(r, addr, id, direction, ext), k, seen || (id == k.them && addr == k.winner))
  {
    if id != k.them {
      OtherAccepted(c, r, k, seen, addr, id, direction, ext);
    } else {
      WinnerAccepted(c, r, k, seen, ext);
    }
  }

  lemma NoDisconnects(pieces: seq<PieceState>, addr: SocketAddr, ext: PeerExtensions, outs: seq<Output>)
    requires AcceptOutputs(pieces, addr, ext, outs)
    ensures forall o :: o in outs ==> !o.DisconnectPeer?
  {
    assert outs == [outs[0], outs[1]];
  }

  lemma NoOtherDisconnects(rs: Reads, which: set<BlockRange>, prev: SocketAddr, pieces: seq<PieceState>,
                           addr: SocketAddr, ext: PeerExtensions, outs: seq<Output>)
    requires |outs| >= 3 && Cancels(rs, which, outs[..|outs| - 3]) && outs[|outs| - 3] == DisconnectPeer(prev)
    requires AcceptOutputs(pieces, addr, ext, outs[|outs| - 2..])
    ensures forall a :: DisconnectPeer(a) in outs ==> a == prev
  {
    CancelsOnlyCancel(rs, which, outs[..|outs| - 3]);
    NoDisconnects(pieces, addr, ext, outs[|outs| - 2..]);
    assert outs == outs[..|outs| - 3] + [outs[|outs| - 3]] + outs[|outs| - 2..];
  }

  lemma MessageLinked(c: Config, s: State, addr: SocketAddr, msg: M.Message, outs: seq<Output>, s': State, k: Link,
                      seen: bool)
    requires Ready(c, s) && Linked(c, s.reg, k, seen) && OnMessage(c, s, addr, msg, outs, s')
    ensures Linked(c, s'.reg, k, seen)
  {
    hide Handled, Ready, Linked;
    var applied := ApplyMessage(s.reg, |c.metainfo.pieces|, addr, msg);
    if applied.Ok? {
      var s1 := s.(reg := applied.value);
      SameReady(c, s, s1);
      var n: nat :| Handled(c, s1, addr, msg, n, outs, s');
      HandledKeepsRegistry(c, s1, addr, msg, n, outs, s');
      AppliedLinked(c, s.reg, k, seen, |c.metainfo.pieces|, addr, msg);
    }
  }

  /** Any step at one side keeps its link; connection events never close the preferred connection. */
  lemma StepLinked(c: Config, s: State, input: Input, outs: seq<Output>, s': State, k: Link, seen: bool)
    requires Ready(c, s) && Linked(c, s.reg, k, seen) && Next(c, s, input, outs, s') && Enabled(c, s, k, false, input)
    requires !(seen && Reports(k, input))
    ensures Linked(c, s'.reg, k, seen || Reports(k, input))
    ensures DisconnectPeer(k.winner) !in outs
  {
    hide Ready, OnConnected, OnMessage, Planned, Linked, Cancels, Closes;
    ClosesIff(c, s, input, outs, s', k.winner);
    match input
    case PeerConnected(id, direction, addr, ext) =>
      ConnectionLinked(c, s, addr, direction, id, ext, outs, s', k, seen);
    case PeerDisconnected(addr) =>
      CancelsOnlyCancel(s.pending, Orphaned(s.pending, addr), outs);
      GoneLinked(c, s.reg, k, seen, addr);
    case MessageReceived(addr, msg) => MessageLinked(c, s, addr, msg, outs, s', k, seen);
    case OnTick(BlockTick) => PlannedKeepsRegistry(c, s, outs, s');
    case _ =>
  }

  /**
   * The start condition is exact: before the preferred connection is reported, no connection event closes it if and
   * only if the index is untangled.
   */
  lemma UntangledIff(c: Config, s: State, k: Link)
    requires Ready(c, s) && Indexed(s.reg) && k.winner != k.loser
    ensures Untangled(c, s.reg, k) <==>
      forall id, direction, addr, ext :: Connects(c, k, id, direction, addr) ==>
        !Closes(c, s, PeerConnected(id, direction, addr, ext), k.winner)
  {
    if Untangled(c, s.reg, k) {
      forall id, direction, addr, ext | Connects(c, k, id, direction, addr)
        ensures !Closes(c, s, PeerConnected(id, direction, addr, ext), k.winner)
      {
        UntangledIsSafe(c, s, k, id, direction, addr, ext);
      }
    } else {
      var id, direction, addr := TangledCloses(c, s, k);
      hide Closes, Connects, Untangled;
      assert Closes(c, s, PeerConnected(id, direction, addr, PeerExtensions(false, false)), k.winner);
    }
  }

  lemma UntangledIsSafe(c: Config, s: State, k: Link, id: PeerId, direction: ConnectionDirection, addr: SocketAddr,
                        ext: PeerExtensions)
    requires Ready(c, s) && Linked(c, s.reg, k, false) && Connects(c, k, id, direction, addr)
    ensures !Closes(c, s, PeerConnected(id, direction, addr, ext), k.winner)
  {
    hide Ready;
    Judged(c, s.reg, k, false, addr, direction, id);
  }

  /** Otherwise the first report of the connection closes it, or a connection of another client does. */
  lemma TangledCloses(c: Config, s: State, k: Link) returns (id: PeerId, direction: ConnectionDirection,
                                                             addr: SocketAddr)
    requires Ready(c, s) && !Untangled(c, s.reg, k) && k.winner != k.loser
    ensures Connects(c, k, id, direction, addr)
    ensures forall ext :: Closes(c, s, PeerConnected(id, direction, addr, ext), k.winner)
  {
    hide Ready;
    if !Harmless(c, s.reg, k) {
      id :| id in s.reg.byId && id != k.them && s.reg.byId[id].0 == k.winner
        && s.reg.byId[id].1 != PreferredDirection(c.clientId, id);
      direction, addr := PreferredDirection(c.clientId, id), k.loser;
    } else {
      id, direction, addr := k.them, Preference(c, k), k.winner;
    }
  }

  // ---- Both sides ----

  /** A step at one of the two sides. */
  datatype Event = Event(first: bool, input: Input, outs: seq<Output>, after: State)

  /** Both swarms, what each has been told of the preferred connection, and whether one of them closed it. */
  datatype TwoSwarms = TwoSwarms(a: State, b: State, seenA: bool, seenB: bool, closed: bool)

  /** The local addresses of one connection: what its far end is called at either side. */
  datatype Wire = Wire(atA: SocketAddr, atB: SocketAddr)

  /** Two clients, the connection that `a` dialled and `b` accepted, and the one that `b` dialled and `a` accepted. */
  datatype Clients = Clients(a: Config, b: Config, byA: Wire, byB: Wire)
  {
    predicate AIsGreater() { Less(b.clientId, a.clientId) }

    function Kept(): Wire { if AIsGreater() then byA else byB }

    function Dropped(): Wire { if AIsGreater() then byB else byA }

    function ViewA(): Link { Link(b.clientId, Kept().atA, Dropped().atA) }

    function ViewB(): Link { Link(a.clientId, Kept().atB, Dropped().atB) }
  }

  /** The connection either side prefers is the one that the greater id dialled: outbound there, inbound here. */
  lemma KeptIsPreferred(x: Clients)
    requires x.a.clientId != x.b.clientId
    ensures Preference(x.a, x.ViewA()) == if x.AIsGreater() then Outbound else Inbound
    ensures Preference(x.b, x.ViewB()) == if x.AIsGreater() then Inbound else Outbound
  {
    PreferencesMeet(x.a.clientId, x.b.clientId);
  }

  ghost predicate Start(x: Clients, p: TwoSwarms) {
    && Inv(x.a, p.a) && Inv(x.b, p.b) && x.byA.atA != x.byB.atA && x.byA.atB != x.byB.atB
    && Untangled(x.a, p.a.reg, x.ViewA()) && Untangled(x.b, p.b.reg, x.ViewB())
    && !p.seenA && !p.seenB && !p.closed
  }

  /** A step of either side, at which the preferred connection is reported at most once. */
  ghost predicate PairNext(x: Clients, p: TwoSwarms, e: Event, p': TwoSwarms)
    requires Ready(x.a, p.a) && Ready(x.b, p.b)
  {
    if e.first then
      && Next(x.a, p.a, e.input, e.outs, e.after) && Enabled(x.a, p.a, x.ViewA(), p.closed, e.input)
      && !(p.seenA && Reports(x.ViewA(), e.input))
      && p' == TwoSwarms(e.after, p.b, p.seenA || Reports(x.ViewA(), e.input), p.seenB,
                         p.closed || DisconnectPeer(x.ViewA().winner) in e.outs)
    else
      && Next(x.b, p.b, e.input, e.outs, e.after) && Enabled(x.b, p.b, x.ViewB(), p.closed, e.input)
      && !(p.seenB && Reports(x.ViewB(), e.input))
      && p' == TwoSwarms(p.a, e.after, p.seenA, p.seenB || Reports(x.ViewB(), e.input),
                         p.closed || DisconnectPeer(x.ViewB().winner) in e.outs)
  }

  ghost predicate PairRun(x: Clients, p0: TwoSwarms, es: seq<Event>, p: TwoSwarms) {
    if es == [] then Start(x, p0) && p == p0
    else exists mid ::
      && PairRun(x, p0, es[..|es| - 1], mid) && Ready(x.a, mid.a) && Ready(x.b, mid.b)
      && PairNext(x, mid, es[|es| - 1], p)
  }

  ghost predicate Agree(x: Clients, p: TwoSwarms) {
    && Inv(x.a, p.a) && Inv(x.b, p.b)
    && Linked(x.a, p.a.reg, x.ViewA(), p.seenA) && Linked(x.b, p.b.reg, x.ViewB(), p.seenB) && !p.closed
  }

  /** In every interleaving the preferred connection stays open and each side is linked by it once it knows it. */
  lemma {:induction false} PairsAgree(x: Clients, p0: TwoSwarms, es: seq<Event>, p: TwoSwarms)
    requires PairRun(x, p0, es, p)
    ensures Agree(x, p)
    decreases |es|
  {
    if es == [] {
      StartAgrees(x, p0);
    } else {
      var e := es[|es| - 1];
      var mid :| PairRun(x, p0, es[..|es| - 1],
                         mid) && Ready(x.a, mid.a) && Ready(x.b, mid.b) && PairNext(x, mid, e, p);
      PairsAgree(x, p0, es[..|es| - 1], mid);
      hide Agree, PairNext, PairRun;
      PairStepAgrees(x, mid, e, p);
    }
  }

  lemma PairStepAgrees(x: Clients, p: TwoSwarms, e: Event, p': TwoSwarms)
    requires Agree(x, p) && PairNext(x, p, e, p')
    ensures Agree(x, p')
  {
    hide Linked, Next, Inv, Ready, Enabled;
    if e.first {
      NextKeeps(x.a, p.a, e.input, e.outs, e.after);
      StepLinked(x.a, p.a, e.input, e.outs, e.after, x.ViewA(), p.seenA);
    } else {
      NextKeeps(x.b, p.b, e.input, e.outs, e.after);
      StepLinked(x.b, p.b, e.input, e.outs, e.after, x.ViewB(), p.seenB);
    }
  }

  lemma StartAgrees(x: Clients, p0: TwoSwarms)
    requires Start(x, p0)
    ensures Agree(x, p0)
  {
    hide Inv, Linked, Untangled;
    SideStarts(x.a, p0.a, x.ViewA());
    SideStarts(x.b, p0.b, x.ViewB());
  }

  lemma SideStarts(c: Config, s: State, k: Link)
    requires Inv(c, s) && k.winner != k.loser && Untangled(c, s.reg, k)
    ensures Linked(c, s.reg, k, false)
  {
    hide InFlightOk, ReadsOk, Ready;
  }

  /**
   * Simultaneous open is resolved: once both sides have been told of the connection that the greater id dialled,
   * in whatever order and with whatever else happening, both hold that same connection for each other, one as
   * outbound and the other as inbound, and no other, and neither side ever closed it.
   */
  lemma SimultaneousOpenAgrees(x: Clients, p0: TwoSwarms, es: seq<Event>, p: TwoSwarms)
    requires x.a.clientId != x.b.clientId && PairRun(x, p0, es, p) && p.seenA && p.seenB
    ensures var kept := x.Kept(); var atA := if x.AIsGreater() then Outbound else Inbound;
      && ConnectionFor(p.a.reg, x.b.clientId) == Some((kept.atA, atA))
      && ConnectionFor(p.b.reg, x.a.clientId) == Some((kept.atB, Opposite(atA)))
      && kept.atA in p.a.reg.peers && kept.atB in p.b.reg.peers && !p.closed
      && (forall addr :: addr in p.a.reg.peers && addr != kept.atA ==> p.a.reg.peers[addr].id != x.b.clientId)
      && (forall addr :: addr in p.b.reg.peers && addr != kept.atB ==> p.b.reg.peers[addr].id != x.a.clientId)
  {
    hide PairRun, Inv;
    PairsAgree(x, p0, es, p);
    KeptIsPreferred(x);
  }
}
