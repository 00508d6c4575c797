/** Who waits for which read, and what a status allows, told from the plain fields (swarm.rs). */
module UploadPolicy {
  import opened Bytes
  import opened Listings
  import opened Peers
  import opened Torrents
  import opened PieceManagers
  import opened Registries
  import opened SwarmEvents
  import opened Scheduling
  import opened SwarmSpec
  import opened SwarmInvariants
  import opened Runs
  import PlanRuns
  import UploadRuns
  import M = Messages
  import X = ExtensionMessages

  // ---- In plain terms ----

  ghost predicate Waits(s: State, addr: SocketAddr, r: BlockRange) {
    r in s.pending && addr in s.pending[r].peers
  }

  ghost function Waiting(s: State): set<(BlockRange, SocketAddr)> {
    set r, a | r in s.pending && a in s.pending[r].peers :: (r, a)
  }

  /** A request that is served: upload is on, the piece is complete and holds the range, and fewer than 32 wait. */
  ghost predicate Served(c: Config, s: State, r: BlockRange) {
    && (s.status.Active? || s.status.UploadOnly?)
    && r.pieceIndex < |s.pieces| && s.pieces[r.pieceIndex].Complete?
    && 0 < r.len <= 16384
    && r.pieceIndex * c.metainfo.pieceLength + r.pieceOffset + r.len <= PlanRuns.EndOf(c.metainfo, r.pieceIndex)
    && |Waiting(s)| < 32
  }

  // ---- One request ----

  lemma WaitingCounted(rs: Reads)
    ensures Total(Waiters(rs)) == |set r, a | r in rs && a in rs[r].peers :: (r, a)|
  {
    var f := map r | r in rs :: rs[r].peers;
    PlanRuns.TotalCounts(f, Waiters(rs));
    assert PlanRuns.Entries(f) == set r, a | r in rs && a in rs[r].peers :: (r, a);
  }

  /** The fate the handler decides is the one stated here. */
  lemma FateIs(c: Config, s: State, r: BlockRange)
    requires Ready(c, s)
    ensures FateOf(c, s, r) == if !Served(c, s, r) then Ignored else if r in s.pending then Shared else Fresh
  {
    WaitingCounted(s.pending);
    assert (r.pieceIndex + 1) * c.metainfo.pieceLength
      == r.pieceIndex * c.metainfo.pieceLength + c.metainfo.pieceLength;
    hide Total, Waiters, PieceOk, TotalSize;
  }

  lemma RequestLaw(c: Config, s: State, addr: SocketAddr, r: BlockRange)
    requires Ready(c, s)
    ensures var s' := AfterRequest(c, s, addr, r);
      && (forall a, q :: Waits(s', a, q) <==> Waits(s, a, q) || (a == addr && q == r && Served(c, s, r)))
      && RequestReply(c, s, r) == (if Served(c, s, r) && r !in s.pending then [ReadForUpload(s.nextId, r)] else [])
      && (Served(c, s, r) ==>
            r in s'.pending && s'.pending[r].readId == if r in s.pending then s.pending[r].readId else s.nextId)
      && s'.nextId == s.nextId + (if Served(c, s, r) && r !in s.pending then 1 else 0)
  {
    FateIs(c, s, r);
    hide FateOf, Served, Ready;
  }

  /** A message that is taken is one from a registered peer that does not break the fast extension. */
  ghost predicate Taken(s: State, addr: SocketAddr, msg: M.Message) {
    && addr in s.reg.peers
    && (msg.HaveAll? || msg.HaveNone? || msg.SuggestPiece? || msg.RejectRequest? || msg.AllowedFast? ==>
          s.reg.peers[addr].fast)
  }

  /** What is left of a step once its message has been taken and handled: the outputs of the handler come first. */
  lemma TakenHandled(c: Config, s: State, addr: SocketAddr, msg: M.Message, outs: seq<Output>, s': State)
      returns (s1: State, k: nat)
    requires Inv(c, s) && Next(c, s, MessageReceived(addr, msg), outs, s') && Taken(s, addr, msg)
    ensures s1 == s.(reg := s1.reg) && addr in s1.reg.peers && Ready(c, s1)
    ensures ApplyMessage(s.reg, |c.metainfo.pieces|, addr, msg).Ok?
    ensures s1.reg == ApplyMessage(s.reg, |c.metainfo.pieces|, addr, msg).value
    ensures Handled(c, s1, addr, msg, k, outs, s')
  {
    hide Inv, Handled, IndexAfter, SeederIn, ApplyToPeer;
    var applied := ApplyMessage(s.reg, |c.metainfo.pieces|, addr, msg);
    s1 := s.(reg := applied.value);
    PlanRuns.InvReady(c, s);
    SameReady(c, s, s1);
    k :| Handled(c, s1, addr, msg, k, outs, s');
  }

  lemma NotTaken(c: Config, s: State, addr: SocketAddr, msg: M.Message, outs: seq<Output>, s': State)
    requires Ready(c, s) && Next(c, s, MessageReceived(addr, msg), outs, s') && !Taken(s, addr, msg)
    ensures s' == s && outs == if addr in s.reg.peers then [DisconnectPeer(addr)] else []
  {
    hide Ready, Handled;
  }

  /** What handling leaves to planning: everything but the table of requests in flight. */
  lemma HandledRest(c: Config, s: State, addr: SocketAddr, msg: M.Message, k: nat, outs: seq<Output>, s': State)
    requires Ready(c, s) && Handled(c, s, addr, msg, k, outs, s')
    ensures s' == AfterMessage(c, s, addr, msg).(inFlight := s'.inFlight)
    ensures k <= |outs| && MessageOutputs(c, s, addr, msg, outs[..k])
    ensures !(msg.Unchoke? || msg.Piece? || msg.AllowedFast?) ==>
      outs[..k] == outs && s' == AfterMessage(c, s, addr, msg)
  {
    hide AfterMessage, MessageOutputs, Ready, IsPlan, Budget, RequestOutputs;
    if !msg.AffectsScheduling() {
      assert outs[..|outs|] == outs;
    }
  }

  /**
   * A request of a registered peer: it waits for the range afterwards exactly if it did before or the request is
   * served; a read is issued exactly if one is needed, under the next number, and nothing else is output.
   */
  lemma RequestIsServedIff(c: Config, s: State, addr: SocketAddr, r: BlockRange, outs: seq<Output>, s': State)
    requires Inv(c, s) && Next(c, s, MessageReceived(addr, M.Request(r)), outs, s') && addr in s.reg.peers
    ensures Waits(s', addr, r) <==> Waits(s, addr, r) || Served(c, s, r)
    ensures forall a, q :: a != addr || q != r ==> (Waits(s', a, q) <==> Waits(s, a, q))
    ensures outs == if Served(c, s, r) && r !in s.pending then [ReadForUpload(s.nextId, r)] else []
    ensures Served(c, s, r) ==>
      r in s'.pending && s'.pending[r].readId == if r in s.pending then s.pending[r].readId else s.nextId
    ensures s'.nextId == s.nextId + if Served(c, s, r) && r !in s.pending then 1 else 0
  {
    hide Inv, Next, Handled, AfterRequest, RequestReply, Served, Ready;
    var s1, k := TakenHandled(c, s, addr, M.Request(r), outs, s');
    HandledRest(c, s1, addr, M.Request(r), k, outs, s');
    RequestLaw(c, s1, addr, r);
    SameServed(c, s, s1, r);
  }

  lemma SameServed(c: Config, s: State, s1: State, r: BlockRange)
    requires s1 == s.(reg := s1.reg)
    ensures Served(c, s1, r) == Served(c, s, r)
    ensures forall a, q :: Waits(s1, a, q) <==> Waits(s, a, q)
  {
    assert Waiting(s1) == Waiting(s);
  }

  // ---- Who waits, over any step ----

  /** The step is the second, preferred connection of an identity whose current one is at `a`. */
  ghost predicate Supersedes(c: Config, s: State, input: Input, a: SocketAddr) {
    && input.PeerConnected? && input.id in s.reg.byId && s.reg.byId[input.id].0 == a
    && s.reg.byId[input.id].1 != input.direction
    && (input.direction.Outbound? <==> Less(input.id, c.clientId))
  }

  /** Who waits for what after a step, told from who did before and the input. */
  ghost predicate WaitsAfter(c: Config, s: State, input: Input, a: SocketAddr, r: BlockRange) {
    match input
    case MessageReceived(addr, Request(q)) =>
      Waits(s, a, r) || (a == addr && r == q && addr in s.reg.peers && Served(c, s, r))
    case MessageReceived(addr, Cancel(q)) => Waits(s, a, r) && !(a == addr && r == q)
    case PeerDisconnected(addr) => Waits(s, a, r) && a != addr
    case PeerConnected(_, _, _, _) => Waits(s, a, r) && !Supersedes(c, s, input, a)
    case UploadReadCompleted(id, q, _) => Waits(s, a, r) && !(r == q && s.pending[r].readId == id)
    case SetStatus(Stopped) => false
    case SetStatus(DownloadOnly) => false
    case _ => Waits(s, a, r)
  }

  lemma GoneWaits(s: State, addr: SocketAddr, a: SocketAddr, r: BlockRange)
    ensures Waits(AfterGone(s, addr), a, r) <==> Waits(s, a, r) && a != addr
  {
    hide AfterDisconnected;
    if Waits(s, a, r) && a != addr {
      assert a in s.pending[r].peers - {addr};
    }
  }

  lemma CancelWaits(s: State, addr: SocketAddr, q: BlockRange, a: SocketAddr, r: BlockRange)
    ensures Waits(AfterCancel(s, addr, q), a, r) <==> Waits(s, a, r) && !(a == addr && r == q)
  {
    if Waits(s, a, r) && !(a == addr && r == q) && r == q {
      assert a in s.pending[r].peers - {addr};
    }
  }

  lemma CompletedWaits(s: State, id: nat, q: BlockRange, data: bytes, outs: seq<Output>, s': State, a: SocketAddr,
                       r: BlockRange)
    requires OnReadCompleted(s, id, q, data, outs, s')
    ensures Waits(s', a, r) <==> Waits(s, a, r) && !(r == q && s.pending[r].readId == id)
  {
    hide Sends;
  }

  lemma ConnectionWaits(c: Config, s: State, input: Input, outs: seq<Output>, s': State, a: SocketAddr, r: BlockRange)
    requires input.PeerConnected?
    requires OnConnected(c, s, input.addr, input.direction, input.id, input.extensions, outs, s')
    ensures Waits(s', a, r) <==> Waits(s, a, r) && !Supersedes(c, s, input, a)
  {
    hide Cancels, AcceptOutputs, AfterDisconnected, AfterConnected, WithoutWaiter;
    match Judge(c.clientId, s.reg, input.direction, input.id)
    case Reject =>
    case Accept =>
    case Replace(prev) => GoneWaits(s, prev, a, r);
  }

  lemma MessageWaits(c: Config, s: State, addr: SocketAddr, msg: M.Message, outs: seq<Output>, s': State,
                     a: SocketAddr, r: BlockRange)
    requires Inv(c, s) && Next(c, s, MessageReceived(addr, msg), outs, s') && !msg.Request?
    ensures Waits(s', a, r) <==> WaitsAfter(c, s, MessageReceived(addr, msg), a, r)
  {
    hide Inv, Next, Handled, AfterCancel, Ready, Served;
    if Taken(s, addr, msg) {
      var s1, k := TakenHandled(c, s, addr, msg, outs, s');
      HandledRest(c, s1, addr, msg, k, outs, s');
      HandlerWaits(c, s1, addr, msg, a, r);
    } else {
      PlanRuns.InvReady(c, s);
      NotTaken(c, s, addr, msg, outs, s');
      if msg.Cancel? {
        StrangerWaits(c, s, addr, a, r);
      }
    }
  }

  lemma HandlerWaits(c: Config, s: State, addr: SocketAddr, msg: M.Message, a: SocketAddr, r: BlockRange)
    requires Ready(c, s) && !msg.Request?
    ensures Waits(AfterMessage(c, s, addr, msg), a, r)
      <==> Waits(s, a, r) && !(msg.Cancel? && a == addr && r == msg.range)
  {
    hide Receipt, Ready, AfterCancel;
    if msg.Cancel? {
      CancelWaits(s, addr, msg.range, a, r);
    }
  }

  /** Somebody who is not registered waits for nothing. */
  lemma StrangerWaits(c: Config, s: State, addr: SocketAddr, a: SocketAddr, r: BlockRange)
    requires Inv(c, s) && addr !in s.reg.peers
    ensures Waits(s, a, r) ==> a != addr
  {
    hide RegistryOk, InFlightOk, PiecesOk;
    if r in s.pending {
      assert ReadOk(c.metainfo, s.pieces, s.reg.peers.Keys, s.nextId, r, s.pending[r]);
    }
  }

  /** The whole law of waiting: who waits for which range changes in every step exactly as stated. */
  lemma WaitersChange(c: Config, s: State, input: Input, outs: seq<Output>, s': State, a: SocketAddr, r: BlockRange)
    requires Inv(c, s) && Next(c, s, input, outs, s')
    ensures Waits(s', a, r) <==> WaitsAfter(c, s, input, a, r)
  {
    hide Inv, Ready, OnConnected, OnMessage, Planned, OnReadCompleted, OnPexTick, Cancels, Served, Supersedes,
      AfterGone, AfterLocal;
    match input
    case MessageReceived(addr, msg) =>
      if msg.Request? && addr in s.reg.peers {
        RequestIsServedIff(c, s, addr, msg.range, outs, s');
      } else if msg.Request? {
        PlanRuns.InvReady(c, s);
        NotTaken(c, s, addr, msg, outs, s');
      } else {
        MessageWaits(c, s, addr, msg, outs, s', a, r);
      }
    case PeerDisconnected(addr) => GoneWaits(s, addr, a, r);
    case PeerConnected(_, _, _, _) => ConnectionWaits(c, s, input, outs, s', a, r);
    case UploadReadCompleted(id, q, data) => CompletedWaits(s, id, q, data, outs, s', a, r);
    case OnTick(BlockTick) => PlannedKeepsReads(c, s, outs, s');
    case LocalPiece(piece, data) => LocalKeepsReads(c, s, piece, data);
    case SetStatus(status) => StatusWaits(s, status, outs, s', a, r);
    case _ =>
  }

  lemma PlannedKeepsReads(c: Config, s: State, outs: seq<Output>, s': State)
    requires Planned(c, s, outs, s')
    ensures s' == s.(inFlight := s'.inFlight)
  {
  }

  lemma LocalKeepsReads(c: Config, s: State, piece: nat, data: bytes)
    requires Ready(c, s)
    ensures AfterLocal(c, s, piece, data).pending == s.pending
  {
    hide Ready, FillLocal, UnreceivedBlocks;
  }

  lemma StatusWaits(s: State, status: SwarmStatus, outs: seq<Output>, s': State, a: SocketAddr, r: BlockRange)
    requires OnSetStatus(s, status, outs, s')
    ensures Waits(s', a, r) <==> Waits(s, a, r) && (status.Active? || status.UploadOnly?)
  {
    hide Cancels;
  }

  // ---- Which reads are issued and which blocks are sent ----

  lemma ConnectionIssuesNothing(c: Config, s: State, input: Input, outs: seq<Output>, s': State)
    requires input.PeerConnected?
    requires OnConnected(c, s, input.addr, input.direction, input.id, input.extensions, outs, s')
    ensures forall o :: o in outs ==> !o.ReadForUpload?
  {
    hide Judge, Cancels, AcceptOutputs, AfterGone, AfterAccept;
    match Judge(c.clientId, s.reg, input.direction, input.id)
    case Reject =>
    case Accept => AcceptIssuesNothing(s.pieces, input.addr, input.extensions, outs);
    case Replace(prev) =>
      CancelsOnlyCancel(s.pending, Orphaned(s.pending, prev), outs[..|outs| - 3]);
      AcceptIssuesNothing(s.pieces, input.addr, input.extensions, outs[|outs| - 2..]);
      assert outs == outs[..|outs| - 3] + [outs[|outs| - 3]] + outs[|outs| - 2..];
  }

  lemma AcceptIssuesNothing(pieces: seq<PieceState>, addr: SocketAddr, ext: PeerExtensions, outs: seq<Output>)
    requires AcceptOutputs(pieces, addr, ext, outs)
    ensures forall o :: o in outs ==> !o.ReadForUpload?
  {
    assert outs == [outs[0], outs[1]];
  }

  lemma PlannedIssuesNothing(c: Config, s: State, outs: seq<Output>, s': State)
    requires Planned(c, s, outs, s')
    ensures forall o :: o in outs ==> !o.ReadForUpload?
  {
    if s.status.Downloads() {
      var rs :| PlansWith(c, s, rs, outs, s');
      UploadRuns.PlanOnlySends(rs);
    }
  }

  lemma HandlerIssuesNothing(c: Config, s: State, addr: SocketAddr, msg: M.Message, outs: seq<Output>)
    requires Ready(c, s) && MessageOutputs(c, s, addr, msg, outs) && !msg.Request?
    ensures forall o :: o in outs ==> !o.ReadForUpload?
  {
    hide PieceOutputs, ExtensionOutputs, Ready, FateOf, Receipt, CompletionOutputs, Discovered;
    match msg
    case Piece(range, data) =>
      var (r, pieces) := Receipt(c, s, addr, range, data);
      if PieceOutputs(c, s, addr, range, data, outs) && r.Ok? && r.value.Some? {
        PieceCompletes(c, s, addr, range, data, outs);
        UploadRuns.CompletionReadsNothing(r.value.value, AllComplete(pieces), s.reg.seeders, outs);
      } else {
        PieceIsQuiet(c, s, addr, range, data, outs);
      }
    case Extension(extId, payload) => ExtensionIssuesNothing(c, s, addr, extId, payload, outs);
    case _ =>
  }

  lemma PieceCompletes(c: Config, s: State, addr: SocketAddr, range: BlockRange, data: bytes, outs: seq<Output>)
    requires Ready(c, s) && PieceOutputs(c, s, addr, range, data, outs)
    requires Receipt(c, s, addr, range, data).0.Ok? && Receipt(c, s, addr, range, data).0.value.Some?
    ensures var (r, pieces) := Receipt(c, s, addr, range, data);
      CompletionOutputs(r.value.value, AllComplete(pieces), s.reg.seeders, outs)
  {
    hide Receipt, CompletionOutputs, Ready;
  }

  lemma PieceIsQuiet(c: Config, s: State, addr: SocketAddr, range: BlockRange, data: bytes, outs: seq<Output>)
    requires Ready(c, s) && PieceOutputs(c, s, addr, range, data, outs)
    requires var r := Receipt(c, s, addr, range, data).0; !(r.Ok? && r.value.Some?)
    ensures outs == []
  {
    hide Receipt, CompletionOutputs, Ready;
  }

  lemma ExtensionIssuesNothing(c: Config, s: State, addr: SocketAddr, extId: byte, payload: bytes, outs: seq<Output>)
    requires ExtensionOutputs(c, s, addr, extId, payload, outs)
    ensures forall o :: o in outs ==> !o.ReadForUpload?
  {
    if extId == M.UT_PEX_EXT_ID && X.DecodePex(payload).Ok? {
      var order :| Listing(order, X.DecodePex(payload).value) && outs == Discovered(s, order);
      DiscoveryOnlyConnects(s.reg, order);
    }
  }

  lemma MessageIssues(c: Config, s: State, addr: SocketAddr, msg: M.Message, outs: seq<Output>, s': State)
    requires Inv(c, s) && Next(c, s, MessageReceived(addr, msg), outs, s') && !msg.Request?
    ensures forall o :: o in outs ==> !o.ReadForUpload?
  {
    hide Inv, Next, Handled, Ready, AfterMessage, MessageOutputs, Planned;
    if Taken(s, addr, msg) {
      var s1, k := TakenHandled(c, s, addr, msg, outs, s');
      HandledRest(c, s1, addr, msg, k, outs, s');
      HandlerIssuesNothing(c, s1, addr, msg, outs[..k]);
      HandledPlan(c, s1, addr, msg, k, outs, s');
      assert outs == outs[..k] + outs[k..];
    } else {
      PlanRuns.InvReady(c, s);
      NotTaken(c, s, addr, msg, outs, s');
    }
  }

  lemma HandledPlan(c: Config, s: State, addr: SocketAddr, msg: M.Message, k: nat, outs: seq<Output>, s': State)
    requires Ready(c, s) && Handled(c, s, addr, msg, k, outs, s')
    ensures k <= |outs| && forall o :: o in outs[k..] ==> !o.ReadForUpload?
  {
    hide Ready, AfterMessage, MessageOutputs, Planned;
    if msg.AffectsScheduling() {
      PlannedIssuesNothing(c, AfterMessage(c, s, addr, msg), outs[k..], s');
    }
  }

  /** A read is issued exactly for a served request of a range that is not being read, under the next number. */
  lemma ReadsAnswerRequests(c: Config, s: State, input: Input, outs: seq<Output>, s': State, id: nat, r: BlockRange)
    requires Inv(c, s) && Next(c, s, input, outs, s')
    ensures ReadForUpload(id, r) in outs <==>
      && input.MessageReceived? && input.message == M.Request(r) && input.addr in s.reg.peers
      && Served(c, s, r) && r !in s.pending && id == s.nextId
  {
    hide Inv, Ready, OnConnected, OnMessage, Planned, OnPexTick, Cancels, Sends, Served;
    match input
    case PeersDiscovered(addrs) => DiscoveryOnlyConnects(s.reg, addrs);
    case MessageReceived(addr, msg) =>
      if !msg.Request? {
        MessageIssues(c, s, addr, msg, outs, s');
      } else if addr in s.reg.peers {
        RequestIsServedIff(c, s, addr, msg.range, outs, s');
      } else {
        PlanRuns.InvReady(c, s);
        NotTaken(c, s, addr, msg, outs, s');
      }
    case PeerDisconnected(addr) => CancelsOnlyCancel(s.pending, Orphaned(s.pending, addr), outs);
    case PeerConnected(_, _, _, _) => ConnectionIssuesNothing(c, s, input, outs, s');
    case UploadReadCompleted(_, range, data) =>
      if outs != [] {
        SendsOnlySend(s.pending[range].peers * s.reg.peers.Keys, M.Piece(range, data), outs);
      }
    case OnTick(BlockTick) => PlannedIssuesNothing(c, s, outs, s');
    case OnTick(PexTick) => PexOnlyExtends(s, outs);
    case LocalPiece(_, _) =>
    case SetStatus(status) =>
      if outs != [] {
        CancelsOnlyCancel(s.pending, s.pending.Keys, outs);
      }
  }

  /** A block is sent exactly when its read completes, to each peer that waits for it, and once. */
  lemma BlocksAnswerReads(c: Config, s: State, input: Input, outs: seq<Output>, s': State, a: SocketAddr,
                          r: BlockRange, data: bytes)
    requires Inv(c, s) && Next(c, s, input, outs, s')
    ensures SendToPeer(a, M.Piece(r, data)) in outs <==>
      && input.UploadReadCompleted? && input.range == r && input.data == data && Waits(s, a, r)
      && s.pending[r].readId == input.readId
    ensures forall i, j :: 0 <= i < j < |outs| && outs[i].SendToPeer? && outs[i].message.Piece? ==> outs[i] != outs[j]
  {
    if input.UploadReadCompleted? {
      UploadRuns.CompletionServes(c, s, input.readId, input.range, input.data, outs, s');
      hide Inv, Next;
      if outs != [] {
        SentOnce(s.pending[input.range].peers, M.Piece(input.range, input.data), outs);
      }
    } else {
      hide Inv, Next;
      UploadsFollowReads(c, s, input, outs, s');
    }
  }

  lemma SentOnce(to: set<SocketAddr>, message: M.Message, outs: seq<Output>)
    requires Sends(to, message, outs)
    ensures forall o :: o in outs <==> o.SendToPeer? && o.addr in to && o.message == message
    ensures forall i, j :: 0 <= i < j < |outs| ==> outs[i] != outs[j]
  {
    var order :| Listing(order, to) && SendsOf(order, message, outs);
    forall o: Output | o.SendToPeer? && o.addr in to && o.message == message ensures o in outs {
      assert o.addr in order;
      var i :| 0 <= i < |order| && order[i] == o.addr;
      assert outs[i] == o;
    }
    forall o | o in outs ensures o.SendToPeer? && o.addr in to && o.message == message {
      var i :| 0 <= i < |outs| && outs[i] == o;
      assert order[i] in order;
    }
  }

  // ---- The status, over runs ----

  /** The status that was set last; `Active` at the start. */
  function StatusOf(tr: Trace): SwarmStatus {
    if tr == [] then Active
    else if tr[|tr| - 1].input.SetStatus? then tr[|tr| - 1].input.status
    else StatusOf(Init(tr))
  }

  lemma StepStatus(c: Config, s: State, input: Input, outs: seq<Output>, s': State)
    requires Inv(c, s) && Next(c, s, input, outs, s')
    ensures s'.status == if input.SetStatus? then input.status else s.status
  {
    hide Inv, Ready, OnMessage, Planned, OnPexTick, Cancels, Sends, Judge, AcceptOutputs, AfterDisconnected,
      AfterConnected;
    match input
    case MessageReceived(addr, msg) => MessageStatus(c, s, addr, msg, outs, s');
    case OnTick(BlockTick) => PlannedKeepsReads(c, s, outs, s');
    case _ =>
  }

  lemma MessageStatus(c: Config, s: State, addr: SocketAddr, msg: M.Message, outs: seq<Output>, s': State)
    requires Inv(c, s) && Next(c, s, MessageReceived(addr, msg), outs, s')
    ensures s'.status == s.status
  {
    hide Inv, Next, Handled, Ready, AfterMessage, MessageOutputs, Planned;
    if Taken(s, addr, msg) {
      var s1, k := TakenHandled(c, s, addr, msg, outs, s');
      HandledRest(c, s1, addr, msg, k, outs, s');
      PlanRuns.HandlerKeepsStatus(c, s1, addr, msg);
    } else {
      PlanRuns.InvReady(c, s);
      NotTaken(c, s, addr, msg, outs, s');
    }
  }

  /** The swarm's status is always the one that was set last. */
  lemma {:induction false} StatusIsLastSet(c: Config, init: State, tr: Trace)
    requires Run(c, init, tr)
    ensures Last(init, tr).status == StatusOf(tr)
  {
    hide Next, Inv;
    if tr == [] {
      assert IsInit(c, init);
    } else {
      var step, before := tr[|tr| - 1], Last(init, Init(tr));
      StatusIsLastSet(c, init, Init(tr));
      RunInv(c, init, Init(tr));
      StepStatus(c, before, step.input, step.outs, step.after);
    }
  }

  lemma OffIsEmpty(c: Config, s: State)
    requires Inv(c, s) && (s.status.Stopped? || s.status.DownloadOnly?)
    ensures s.pending == map[]
  {
  }

  /** While the status set last is `Stopped` or `DownloadOnly` nothing is pending, read or uploaded. */
  lemma UploadOffIsQuiet(c: Config, init: State, tr: Trace)
    requires Run(c, init, tr) && tr != [] && (StatusOf(tr).Stopped? || StatusOf(tr).DownloadOnly?)
    ensures Last(init, tr).pending == map[]
    ensures forall o :: o in tr[|tr| - 1].outs ==> !o.ReadForUpload? && !(o.SendToPeer? && o.message.Piece?)
  {
    var step, before := tr[|tr| - 1], Last(init, Init(tr));
    hide Next, Inv, Served;
    StatusIsLastSet(c, init, tr);
    RunInv(c, init, tr);
    OffIsEmpty(c, Last(init, tr));
    StatusIsLastSet(c, init, Init(tr));
    RunInv(c, init, Init(tr));
    forall o | o in step.outs ensures !o.ReadForUpload? && !(o.SendToPeer? && o.message.Piece?) {
      if o.ReadForUpload? {
        ReadsAnswerRequests(c, before, step.input, step.outs, step.after, o.readId, o.range);
        OffIsNotServed(c, before, o.range);
      }
      if o.SendToPeer? && o.message.Piece? {
        BlocksAnswerReads(c, before, step.input, step.outs, step.after, o.addr, o.message.range, o.message.data);
        OffIsEmpty(c, before);
      }
    }
  }

  lemma OffIsNotServed(c: Config, s: State, r: BlockRange)
    requires s.status.Stopped? || s.status.DownloadOnly?
    ensures !Served(c, s, r)
  {
  }

  /** While the status set last is `Stopped` or `UploadOnly` nothing is requested. */
  lemma DownloadOffIsQuiet(c: Config, init: State, tr: Trace)
    requires Run(c, init, tr) && tr != [] && (StatusOf(tr).Stopped? || StatusOf(tr).UploadOnly?)
    ensures NoRequests(tr[|tr| - 1].outs)
  {
    var outs := tr[|tr| - 1].outs;
    hide Run, PlanRuns.Replans, PlanRuns.Fair;
    StatusIsLastSet(c, init, tr);
    forall i | 0 <= i < |outs| ensures !IsRequest(outs[i]) {
      if IsRequest(outs[i]) {
        PlanRuns.EveryRequestIsFair(c, init, tr, i);
      }
    }
  }

  /** Setting a status changes nothing else, except that turning upload off cancels every pending read, once each. */
  lemma StatusChange(c: Config, s: State, status: SwarmStatus, outs: seq<Output>, s': State)
    requires Inv(c, s) && Next(c, s, SetStatus(status), outs, s')
    ensures status.Active? || status.UploadOnly? ==> outs == [] && s' == s.(status := status)
    ensures status.Stopped? || status.DownloadOnly? ==>
      && s' == s.(status := status, pending := map[])
      && (forall o :: o in outs <==> exists r :: r in s.pending && o == CancelUploadRead(s.pending[r].readId))
      && forall i, j :: 0 <= i < j < |outs| ==> outs[i] != outs[j]
  {
    if status.Stopped? || status.DownloadOnly? {
      InvDistinct(c, s);
      hide Inv;
      CancelledOnce(s.pending, outs);
    }
  }

  lemma InvDistinct(c: Config, s: State)
    requires Inv(c, s)
    ensures DistinctIds(s.pending)
  {
  }

  lemma CancelledOnce(rs: Reads, outs: seq<Output>)
    requires Cancels(rs, rs.Keys, outs) && DistinctIds(rs)
    ensures forall o :: o in outs <==> exists r :: r in rs && o == CancelUploadRead(rs[r].readId)
    ensures forall i, j :: 0 <= i < j < |outs| ==> outs[i] != outs[j]
  {
    var order :| Listing(order, rs.Keys) && CancelsOf(rs, order, outs);
    forall o ensures o in outs <==> exists r :: r in rs && o == CancelUploadRead(rs[r].readId) {
      if r :| r in rs && o == CancelUploadRead(rs[r].readId) {
        CancelListed(rs, order, outs, r);
      }
      if o in outs {
        ListedCancel(rs, order, outs, o);
      }
    }
    forall i, j | 0 <= i < j < |outs| ensures outs[i] != outs[j] {
      assert order[i] in rs && order[j] in rs && order[i] != order[j];
    }
  }

  lemma CancelListed(rs: Reads, order: seq<BlockRange>, outs: seq<Output>, r: BlockRange)
    requires Listing(order, rs.Keys) && CancelsOf(rs, order, outs) && r in rs
    ensures CancelUploadRead(rs[r].readId) in outs
  {
    assert r in order;
    var i :| 0 <= i < |order| && order[i] == r;
    assert outs[i] == CancelUploadRead(rs[r].readId);
  }

  lemma ListedCancel(rs: Reads, order: seq<BlockRange>, outs: seq<Output>, o: Output)
    requires CancelsOf(rs, order, outs) && o in outs
    ensures exists r :: r in rs && o == CancelUploadRead(rs[r].readId)
  {
    var i :| 0 <= i < |outs| && outs[i] == o;
    assert order[i] in rs;
  }
}
