/** Runs of the swarm: any inputs, in any order, from a fresh state. */
module Runs {
  import opened Bytes
  import opened Listings
  import opened Peers
  import opened PieceManagers
  import opened Assignments
  import opened Registries
  import opened SwarmEvents
  import opened Scheduling
  import opened SwarmSpec
  import opened SwarmInvariants
  import M = Messages
  import X = ExtensionMessages

  datatype Step = Step(input: Input, outs: seq<Output>, after: State)

  type Trace = seq<Step>

  function Last(init: State, tr: Trace): State {
    if tr == [] then init else tr[|tr| - 1].after
  }

  function Init(tr: Trace): Trace
    requires tr != []
  {
    tr[..|tr| - 1]
  }

  ghost predicate Run(c: Config, init: State, tr: Trace) {
    if tr == [] then IsInit(c, init)
    else
      var step, before := tr[|tr| - 1], Last(init, Init(tr));
      Run(c, init, Init(tr)) && Ready(c, before) && Next(c, before, step.input, step.outs, step.after)
  }

  /** Every prefix of a run is a run. */
  lemma {:induction false} RunPrefix(c: Config, init: State, tr: Trace, k: nat)
    requires Run(c, init, tr) && k <= |tr|
    ensures Run(c, init, tr[..k])
    decreases |tr|
  {
    if k == |tr| {
      assert tr[..k] == tr;
    } else {
      assert Init(tr)[..k] == tr[..k];
      RunPrefix(c, init, Init(tr), k);
    }
  }

  /** Every step of a run is a step from the state before it. */
  lemma StepOf(c: Config, init: State, tr: Trace, k: nat)
    requires Run(c, init, tr) && k < |tr|
    ensures var before := Last(init, tr[..k]);
      && Ready(c, before) && Next(c, before, tr[k].input, tr[k].outs, tr[k].after)
      && Last(init, tr[..k + 1]) == tr[k].after
  {
    hide Next, Ready;
    RunPrefix(c, init, tr, k + 1);
    assert tr[..k + 1][..k] == tr[..k];
  }

  /** The invariant holds after every run. */
  lemma {:induction false} RunInv(c: Config, init: State, tr: Trace)
    requires Run(c, init, tr)
    ensures Inv(c, Last(init, tr))
  {
    hide Inv, Next;
    if tr == [] {
      InitInv(c, init);
    } else {
      RunInv(c, init, Init(tr));
      NextKeeps(c, Last(init, Init(tr)), tr[|tr| - 1].input, tr[|tr| - 1].outs, tr[|tr| - 1].after);
    }
  }

  /** In no reachable state do two registered addresses share a peer id. */
  lemma IdsStayUnique(c: Config, init: State, tr: Trace)
    requires Run(c, init, tr)
    ensures UniqueIds(Last(init, tr).reg)
  {
    RunInv(c, init, tr);
    IndexedUnique(Last(init, tr).reg);
  }

  /**
   * In every reachable state each request in flight is for a real aligned block, at a registered peer that
   * unchoked us or allows the piece fast, and no peer has more than 32 of them.
   */
  lemma RequestsInFlightAreSound(c: Config, init: State, tr: Trace)
    requires Run(c, init, tr)
    ensures var s := Last(init, tr);
      && (forall addr, b :: IsHolder(s.inFlight, b, addr) ==>
           addr in s.reg.peers && PeerCanServe(s.reg.peers[addr], b.pieceIndex) && RealBlock(c.metainfo, b))
      && (forall addr :: |HeldBy(s.inFlight, addr)| <= 32)
  {
    RunInv(c, init, tr);
    hide Run, RealBlock, PeerCanServe, RegistryOk, ReadsOk, Ready;
  }

  // ---- Requests on the wire ----

  datatype Pair = Pair(addr: SocketAddr, block: BlockRange)

  ghost predicate IsRequest(o: Output) {
    o.SendToPeer? && o.message.Request?
  }

  /** The pairs outstanding once the outputs have been sent, in order. */
  ghost function AfterSending(pairs: set<Pair>, outs: seq<Output>): set<Pair> {
    if outs == [] then pairs
    else
      var o := outs[|outs| - 1];
      AfterSending(pairs, outs[..|outs| - 1]) + if IsRequest(o) then {Pair(o.addr, o.message.range)} else {}
  }

  /** No output requests a pair that is outstanding when it is sent. */
  ghost predicate NoDuplicates(pairs: set<Pair>, outs: seq<Output>) {
    forall k :: 0 <= k < |outs| && IsRequest(outs[k]) ==>
      Pair(outs[k].addr, outs[k].message.range) !in AfterSending(pairs, outs[..k])
  }

  ghost function Without(pairs: set<Pair>, addr: SocketAddr): set<Pair> {
    set p | p in pairs && p.addr != addr
  }

  /**
   * What an input resolves, judged from the wire alone: the block arrives or is rejected, the peer
   * chokes us or goes away, or its address is taken by a new connection.
   */
  ghost function AfterInput(pairs: set<Pair>, input: Input, outs: seq<Output>): set<Pair> {
    match input
    case PeerDisconnected(addr) => Without(pairs, addr)
    case PeerConnected(_, _, addr, _) =>
      if outs == [DisconnectPeer(addr)] then pairs
      else if |outs| >= 3 && outs[|outs| - 3].DisconnectPeer? then Without(Without(pairs, outs[|outs| - 3].addr), addr)
      else Without(pairs, addr)
    case MessageReceived(addr, Choke) => Without(pairs, addr)
    case MessageReceived(addr, Piece(range, _)) => pairs - {Pair(addr, range)}
    case MessageReceived(addr, RejectRequest(range)) => if outs == [] then pairs - {Pair(addr, range)} else pairs
    case _ => pairs
  }

  ghost function Outstanding(tr: Trace): set<Pair> {
    if tr == [] then {}
    else
      var step := tr[|tr| - 1];
      AfterSending(AfterInput(Outstanding(Init(tr)), step.input, step.outs), step.outs)
  }

  ghost predicate Mirrors(pairs: set<Pair>, a: InFlight) {
    forall p :: p in pairs <==> IsHolder(a, p.block, p.addr)
  }

  ghost predicate NoRequests(outs: seq<Output>) {
    forall o :: o in outs ==> !IsRequest(o)
  }

  /** Neither a `Request` nor a `Piece` is sent. */
  ghost predicate NoTransfers(outs: seq<Output>) {
    forall o :: o in outs && o.SendToPeer? ==> !o.message.Request? && !o.message.Piece?
  }

  lemma {:induction false} NothingRequested(pairs: set<Pair>, outs: seq<Output>)
    requires NoRequests(outs)
    ensures AfterSending(pairs, outs) == pairs && NoDuplicates(pairs, outs)
  {
    if outs != [] {
      NothingRequested(pairs, outs[..|outs| - 1]);
    }
  }

  lemma {:induction false} SendingAppends(pairs: set<Pair>, xs: seq<Output>, ys: seq<Output>)
    ensures AfterSending(pairs, xs + ys) == AfterSending(AfterSending(pairs, xs), ys)
  {
    if ys == [] {
      assert xs + ys == xs;
    } else {
      assert (xs + ys)[..|xs + ys| - 1] == xs + ys[..|ys| - 1];
      SendingAppends(pairs, xs, ys[..|ys| - 1]);
    }
  }

  lemma DuplicatesAppend(pairs: set<Pair>, xs: seq<Output>, ys: seq<Output>)
    requires NoDuplicates(pairs, xs) && NoDuplicates(AfterSending(pairs, xs), ys)
    ensures NoDuplicates(pairs, xs + ys)
  {
    forall k | 0 <= k < |xs + ys| && IsRequest((xs + ys)[k])
      ensures Pair((xs + ys)[k].addr, (xs + ys)[k].message.range) !in AfterSending(pairs, (xs + ys)[..k])
    {
      if k < |xs| {
        assert (xs + ys)[..k] == xs[..k];
      } else {
        assert (xs + ys)[..k] == xs + ys[..k - |xs|];
        SendingAppends(pairs, xs, ys[..k - |xs|]);
      }
    }
  }

  /** A plan's requests go out one by one, each for a pair that is not yet outstanding. */
  lemma {:induction false} PlanOnWire(sc: Scene, pairs: set<Pair>, a: InFlight, rs: seq<BlockRequest>)
    requires Mirrors(pairs, a) && AllSound(sc, a, rs)
    ensures NoDuplicates(pairs, RequestOutputs(rs))
    ensures Mirrors(AfterSending(pairs, RequestOutputs(rs)), AssignAll(a, rs))
  {
    if rs != [] {
      var init, last := rs[..|rs| - 1], rs[|rs| - 1];
      AllSoundPrefix(sc, a, rs);
      PlanOnWire(sc, pairs, a, init);
      assert Eligible(sc.reg, AssignAll(a, init), last.block, last.addr);
      hide AllSound, Sound, Eligible;
      RequestOnWire(AfterSending(pairs, RequestOutputs(init)), AssignAll(a, init), last);
      SendingAppends(pairs, RequestOutputs(init), OutputsFor(last));
      DuplicatesAppend(pairs, RequestOutputs(init), OutputsFor(last));
    }
  }

  lemma RequestOnWire(pairs: set<Pair>, a: InFlight, r: BlockRequest)
    requires Mirrors(pairs, a) && !IsHolder(a, r.block, r.addr)
    ensures NoDuplicates(pairs, OutputsFor(r))
    ensures Mirrors(AfterSending(pairs, OutputsFor(r)), AssignTo(a, r.block, r.addr))
  {
    var outs := OutputsFor(r);
    assert AfterSending(pairs, outs[..0]) == pairs;
    assert AfterSending(pairs, outs[..1]) == pairs by {
      assert outs[..1][..0] == outs[..0];
    }
    assert AfterSending(pairs, outs) == pairs + {Pair(r.addr, r.block)};
  }

  // ---- Which outputs request nothing ----

  lemma {:induction false} DiscoveryOnlyConnects(reg: Registry, addrs: seq<SocketAddr>)
    ensures forall o :: o in Unknown(reg, addrs) ==> o.ConnectPeer?
  {
    if addrs != [] {
      DiscoveryOnlyConnects(reg, addrs[..|addrs| - 1]);
    }
  }

  lemma CancelsOnlyCancel(rs: Reads, which: set<BlockRange>, outs: seq<Output>)
    requires Cancels(rs, which, outs)
    ensures forall o :: o in outs ==> o.CancelUploadRead?
  {
    var order :| Listing(order, which) && CancelsOf(rs, order, outs);
  }

  lemma SendsOnlySend(to: set<SocketAddr>, message: M.Message, outs: seq<Output>)
    requires Sends(to, message, outs)
    ensures forall o :: o in outs ==> o.SendToPeer? && o.message == message
  {
    var order :| Listing(order, to) && SendsOf(order, message, outs);
  }

  lemma DisconnectsOnlyDisconnect(to: set<SocketAddr>, outs: seq<Output>)
    requires Disconnects(to, outs)
    ensures forall o :: o in outs ==> o.DisconnectPeer?
  {
    var order :| Listing(order, to) && DisconnectsOf(order, outs);
  }

  lemma PexOnlyExtends(s: State, outs: seq<Output>)
    requires OnPexTick(s, outs)
    ensures forall o :: o in outs ==> o.SendToPeer? && o.message.Extension?
  {
    var order, payload :|
      && Listing(order, PexPeers(s.reg)) && X.IsPexEncoding(payload, s.reg.seeders + s.reg.leechers)
      && PexOf(s.reg, order, payload, outs);
  }

  lemma CompletionTransfersNothing(done: CompletedPiece, last: bool, seeders: set<SocketAddr>, outs: seq<Output>)
    requires CompletionOutputs(done, last, seeders, outs)
    ensures NoTransfers(outs)
  {
    if last {
      DisconnectsOnlyDisconnect(seeders, outs[3..]);
      assert outs == [outs[0], outs[1], outs[2]] + outs[3..];
    } else {
      assert outs == [outs[0], outs[1]];
    }
  }

  lemma ExtensionTransfersNothing(c: Config, s: State, addr: SocketAddr, extId: byte, payload: bytes, outs: seq<Output>)
    requires ExtensionOutputs(c, s, addr, extId, payload, outs)
    ensures NoTransfers(outs)
  {
    if extId == M.UT_PEX_EXT_ID && X.DecodePex(payload).Ok? {
      var order :| Listing(order, X.DecodePex(payload).value) && outs == Discovered(s, order);
      DiscoveryOnlyConnects(s.reg, order);
    }
  }

  /** Handling a message never requests a block, nor sends one: planning and completed reads do. */
  lemma HandlerTransfersNothing(c: Config, s: State, addr: SocketAddr, msg: M.Message, outs: seq<Output>)
    requires Ready(c, s) && MessageOutputs(c, s, addr, msg, outs)
    ensures NoTransfers(outs)
  {
    hide PieceOutputs, ExtensionOutputs, Ready, FateOf;
    match msg
    case Piece(range, data) => PieceTransfersNothing(c, s, addr, range, data, outs);
    case Extension(extId, payload) => ExtensionTransfersNothing(c, s, addr, extId, payload, outs);
    case _ =>
  }

  lemma PieceTransfersNothing(c: Config, s: State, addr: SocketAddr, range: BlockRange, data: bytes, outs: seq<Output>)
    requires Ready(c, s) && PieceOutputs(c, s, addr, range, data, outs)
    ensures NoTransfers(outs)
  {
    hide CompletionOutputs, Receipt;
    var (r, pieces) := Receipt(c, s, addr, range, data);
    if r.Ok? && r.value.Some? {
      CompletionTransfersNothing(r.value.value, AllComplete(pieces), s.reg.seeders, outs);
    }
  }

  lemma AcceptTransfersNothing(pieces: seq<PieceState>, addr: SocketAddr, ext: PeerExtensions, outs: seq<Output>)
    requires AcceptOutputs(pieces, addr, ext, outs)
    ensures NoTransfers(outs) && |outs| == 2 && outs[1] == SendToPeer(addr, M.Interested)
  {
    assert outs == [outs[0], outs[1]];
  }

  // ---- One step on the wire ----

  lemma GoneMirrors(pairs: set<Pair>, a: InFlight, addr: SocketAddr)
    requires Mirrors(pairs, a)
    ensures Mirrors(Without(pairs, addr), Release(a, addr))
  {
  }

  lemma ConnectionTransfersNothing(c: Config, s: State, addr: SocketAddr, direction: ConnectionDirection, id: PeerId,
                                   ext: PeerExtensions, outs: seq<Output>, s': State)
    requires OnConnected(c, s, addr, direction, id, ext, outs, s')
    ensures NoTransfers(outs)
  {
    hide NoTransfers, AcceptOutputs, Judge, Cancels;
    match Judge(c.clientId, s.reg, direction, id)
    case Reject => assert NoTransfers(outs) by { RejectTransfersNothing(addr, outs); }
    case Accept => AcceptTransfersNothing(s.pieces, addr, ext, outs);
    case Replace(prev) =>
      ReplaceTransfersNothing(s.pending, Orphaned(s.pending, prev), prev, s.pieces, addr, ext, outs);
  }

  lemma ConnectionOnWire(c: Config, s: State, addr: SocketAddr, direction: ConnectionDirection, id: PeerId,
                         ext: PeerExtensions, outs: seq<Output>, s': State, pairs: set<Pair>)
    requires OnConnected(c, s, addr, direction, id, ext, outs, s') && Mirrors(pairs, s.inFlight)
    ensures Mirrors(AfterInput(pairs, PeerConnected(id, direction, addr, ext), outs), s'.inFlight)
  {
    hide Mirrors, AcceptOutputs, Judge, Cancels, Without, Release;
    match Judge(c.clientId, s.reg, direction, id)
    case Reject =>
    case Accept =>
      AcceptTransfersNothing(s.pieces, addr, ext, outs);
      GoneMirrors(pairs, s.inFlight, addr);
    case Replace(prev) =>
      GoneMirrors(pairs, s.inFlight, prev);
      GoneMirrors(Without(pairs, prev), Release(s.inFlight, prev), addr);
  }

  lemma RejectTransfersNothing(addr: SocketAddr, outs: seq<Output>)
    requires outs == [DisconnectPeer(addr)]
    ensures NoTransfers(outs)
  {
  }

  lemma ReplaceTransfersNothing(rs: Reads, which: set<BlockRange>, prev: SocketAddr, pieces: seq<PieceState>,
                               addr: SocketAddr, ext: PeerExtensions, outs: seq<Output>)
    requires |outs| >= 3 && Cancels(rs, which, outs[..|outs| - 3]) && outs[|outs| - 3] == DisconnectPeer(prev)
    requires AcceptOutputs(pieces, addr, ext, outs[|outs| - 2..])
    ensures NoTransfers(outs)
  {
    CancelsOnlyCancel(rs, which, outs[..|outs| - 3]);
    AcceptTransfersNothing(pieces, addr, ext, outs[|outs| - 2..]);
    assert outs == outs[..|outs| - 3] + [outs[|outs| - 3]] + outs[|outs| - 2..];
  }

  /** What a message resolves on the wire is what its handler removes from the table. */
  lemma HandlerMirrors(c: Config, s: State, addr: SocketAddr, msg: M.Message, outs: seq<Output>, pairs: set<Pair>)
    requires Ready(c, s) && Mirrors(pairs, s.inFlight) && (msg.RejectRequest? ==> outs == [])
    ensures Mirrors(AfterInput(pairs, MessageReceived(addr, msg), outs), AfterMessage(c, s, addr, msg).inFlight)
  {
    hide Receipt, FateOf, Ready;
    match msg
    case Choke => GoneMirrors(pairs, s.inFlight, addr);
    case Piece(range, data) => ResolveMirrors(pairs, s.inFlight, range, addr);
    case RejectRequest(range) => ResolveMirrors(pairs, s.inFlight, range, addr);
    case _ =>
  }

  lemma ResolveMirrors(pairs: set<Pair>, a: InFlight, range: BlockRange, addr: SocketAddr)
    requires Mirrors(pairs, a)
    ensures Mirrors(pairs - {Pair(addr, range)}, UnassignFrom(a, range, addr))
    ensures !IsHolder(a, range, addr) ==> Mirrors(pairs - {Pair(addr, range)}, a)
  {
  }

  lemma IgnoredMirrors(c: Config, s: State, addr: SocketAddr, msg: M.Message, outs: seq<Output>, pairs: set<Pair>)
    requires Inv(c, s) && Mirrors(pairs, s.inFlight)
    requires addr !in s.reg.peers || (msg.NeedsFast() && outs != [])
    ensures Mirrors(AfterInput(pairs, MessageReceived(addr, msg), outs), s.inFlight)
  {
    forall p | p in pairs ensures p.addr in s.reg.peers {
      assert IsHolder(s.inFlight, p.block, p.addr);
    }
  }

  lemma MessageOnWire(c: Config, s: State, addr: SocketAddr, msg: M.Message, outs: seq<Output>, s': State,
                      pairs: set<Pair>)
    requires Inv(c, s) && OnMessage(c, s, addr, msg, outs, s') && Mirrors(pairs, s.inFlight)
    ensures var now := AfterInput(pairs, MessageReceived(addr, msg), outs);
      NoDuplicates(now, outs) && Mirrors(AfterSending(now, outs), s'.inFlight)
  {
    hide Inv, Handled, Mirrors, AfterInput, Next, NoDuplicates, AfterSending;
    var applied := ApplyMessage(s.reg, |c.metainfo.pieces|, addr, msg);
    if applied.Ok? {
      var k: nat :| Handled(c, s.(reg := applied.value), addr, msg, k, outs, s');
      HandledOnWire(c, s.(reg := applied.value), addr, msg, k, outs, s', pairs);
    } else {
      IgnoredMirrors(c, s, addr, msg, outs, pairs);
      NothingRequested(AfterInput(pairs, MessageReceived(addr, msg), outs), outs);
    }
  }

  lemma HandledOnWire(c: Config, s: State, addr: SocketAddr, msg: M.Message, k: nat, outs: seq<Output>, s': State,
                      pairs: set<Pair>)
    requires Ready(c, s) && Handled(c, s, addr, msg, k, outs, s') && Mirrors(pairs, s.inFlight)
    ensures var now := AfterInput(pairs, MessageReceived(addr, msg), outs);
      NoDuplicates(now, outs) && Mirrors(AfterSending(now, outs), s'.inFlight)
  {
    var now := AfterInput(pairs, MessageReceived(addr, msg), outs);
    assert outs == outs[..k] + outs[k..];
    assert msg.RejectRequest? ==> outs == [];
    hide Mirrors, AfterInput, NoDuplicates, AfterSending, MessageOutputs, AfterMessage, Planned;
    HandlerTransfersNothing(c, s, addr, msg, outs[..k]);
    HandlerMirrors(c, s, addr, msg, outs, pairs);
    NothingRequested(now, outs[..k]);
    if msg.AffectsScheduling() {
      PlannedOnWire(c, AfterMessage(c, s, addr, msg), outs[k..], s', now);
    } else {
      NothingRequested(now, outs[k..]);
    }
    SendingAppends(now, outs[..k], outs[k..]);
    DuplicatesAppend(now, outs[..k], outs[k..]);
  }

  lemma PlannedOnWire(c: Config, s: State, outs: seq<Output>, s': State, pairs: set<Pair>)
    requires Planned(c, s, outs, s') && Mirrors(pairs, s.inFlight)
    ensures NoDuplicates(pairs, outs) && Mirrors(AfterSending(pairs, outs), s'.inFlight)
  {
    if s.status.Downloads() {
      var rs :| PlansWith(c, s, rs, outs, s');
      hide Mirrors, NoDuplicates, AfterSending, AllSound, Budget;
      PlanOnWire(SceneOf(c, s), pairs, s.inFlight, rs);
    }
  }

  lemma StepOnWire(c: Config, s: State, input: Input, outs: seq<Output>, s': State, pairs: set<Pair>)
    requires Inv(c, s) && Next(c, s, input, outs, s') && Mirrors(pairs, s.inFlight)
    ensures var now := AfterInput(pairs, input, outs);
      NoDuplicates(now, outs) && Mirrors(AfterSending(now, outs), s'.inFlight)
  {
    hide Inv, OnConnected, OnMessage, Planned, OnReadCompleted, OnSetStatus, OnPexTick, Discovered, Mirrors,
      NoDuplicates, AfterSending, Cancels;
    match input
    case PeerConnected(id, direction, addr, ext) =>
      ConnectionOnWire(c, s, addr, direction, id, ext, outs, s', pairs);
      ConnectionTransfersNothing(c, s, addr, direction, id, ext, outs, s');
      NothingRequested(AfterInput(pairs, input, outs), outs);
    case PeerDisconnected(addr) =>
      CancelsOnlyCancel(s.pending, Orphaned(s.pending, addr), outs);
      GoneMirrors(pairs, s.inFlight, addr);
      NothingRequested(AfterInput(pairs, input, outs), outs);
    case MessageReceived(addr, msg) => MessageOnWire(c, s, addr, msg, outs, s', pairs);
    case OnTick(BlockTick) => PlannedOnWire(c, s, outs, s', pairs);
    case _ =>
      QuietInput(c, s, input, outs, s');
      NothingRequested(pairs, outs);
  }

  lemma QuietInput(c: Config, s: State, input: Input, outs: seq<Output>, s': State)
    requires Ready(c, s) && Next(c, s, input, outs, s')
    requires !(input.PeerConnected? || input.PeerDisconnected? || input.MessageReceived? || input == OnTick(BlockTick))
    ensures NoRequests(outs) && s'.inFlight == s.inFlight
  {
    hide OnConnected, OnMessage, Planned, OnPexTick, Cancels, Sends;
    match input
    case PeersDiscovered(addrs) => DiscoveryOnlyConnects(s.reg, addrs);
    case UploadReadCompleted(id, range, data) =>
      if outs != [] {
        SendsOnlySend(s.pending[range].peers * s.reg.peers.Keys, M.Piece(range, data), outs);
      }
    case SetStatus(status) =>
      if !status.Uploads() {
        CancelsOnlyCancel(s.pending, s.pending.Keys, outs);
      }
    case OnTick(PexTick) => PexOnlyExtends(s, outs);
    case _ =>
  }

  /** The table of requests in flight is exactly what an observer of the wire sees outstanding. */
  lemma {:induction false} InFlightIsOutstanding(c: Config, init: State, tr: Trace)
    requires Run(c, init, tr)
    ensures Mirrors(Outstanding(tr), Last(init, tr).inFlight)
  {
    hide Next, Inv;
    if tr != [] {
      var step, before := tr[|tr| - 1], Last(init, Init(tr));
      InFlightIsOutstanding(c, init, Init(tr));
      RunInv(c, init, Init(tr));
      hide Mirrors, AfterInput, AfterSending;
      StepOnWire(c, before, step.input, step.outs, step.after, Outstanding(Init(tr)));
    } else {
      assert IsInit(c, init);
    }
  }

  /** No run ever sends a second `Request` for a block that is still outstanding at that peer. */
  lemma NoRequestIsRepeated(c: Config, init: State, tr: Trace)
    requires Run(c, init, tr) && tr != []
    ensures var step := tr[|tr| - 1];
      NoDuplicates(AfterInput(Outstanding(Init(tr)), step.input, step.outs), step.outs)
  {
    var step, before := tr[|tr| - 1], Last(init, Init(tr));
    hide Next, Inv, Mirrors, AfterInput, NoDuplicates;
    InFlightIsOutstanding(c, init, Init(tr));
    RunInv(c, init, Init(tr));
    StepOnWire(c, before, step.input, step.outs, step.after, Outstanding(Init(tr)));
  }

  // ---- Uploads on the wire ----

  lemma {:induction false} PlanUploadsNothing(rs: seq<BlockRequest>)
    ensures forall o :: o in RequestOutputs(rs) ==> o.SendToPeer? && !o.message.Piece?
  {
    if rs != [] {
      PlanUploadsNothing(rs[..|rs| - 1]);
    }
  }

  ghost predicate NoUploads(outs: seq<Output>) {
    forall o :: o in outs && o.SendToPeer? ==> !o.message.Piece?
  }

  lemma PlannedUploadsNothing(c: Config, s: State, outs: seq<Output>, s': State)
    requires Planned(c, s, outs, s')
    ensures NoUploads(outs)
  {
    if s.status.Downloads() {
      var rs :| PlansWith(c, s, rs, outs, s');
      PlanUploadsNothing(rs);
    }
  }

  lemma MessageUploadsNothing(c: Config, s: State, addr: SocketAddr, msg: M.Message, outs: seq<Output>, s': State)
    requires Ready(c, s) && OnMessage(c, s, addr, msg, outs, s')
    ensures NoUploads(outs)
  {
    hide Handled, Ready;
    var applied := ApplyMessage(s.reg, |c.metainfo.pieces|, addr, msg);
    if applied.Ok? {
      var s1 := s.(reg := applied.value);
      assert Ready(c, s1) by { SameReady(c, s, s1); }
      var k: nat :| Handled(c, s1, addr, msg, k, outs, s');
      HandledUploadsNothing(c, s1, addr, msg, k, outs, s');
    }
  }

  lemma SameReady(c: Config, s: State, s1: State)
    requires Ready(c, s) && s1.pieces == s.pieces
    ensures Ready(c, s1)
  {
  }

  lemma HandledUploadsNothing(c: Config, s: State, addr: SocketAddr, msg: M.Message, k: nat, outs: seq<Output>,
                              s': State)
    requires Ready(c, s) && Handled(c, s, addr, msg, k, outs, s')
    ensures NoUploads(outs)
  {
    hide MessageOutputs, AfterMessage, Planned;
    HandlerTransfersNothing(c, s, addr, msg, outs[..k]);
    assert outs == outs[..k] + outs[k..];
    if msg.AffectsScheduling() {
      PlannedUploadsNothing(c, AfterMessage(c, s, addr, msg), outs[k..], s');
    } else {
      assert outs[k..] == [];
    }
  }

  /** A `Piece` is only ever sent when a disk read has completed. */
  lemma UploadsFollowReads(c: Config, s: State, input: Input, outs: seq<Output>, s': State)
    requires Inv(c, s) && Next(c, s, input, outs, s') && !input.UploadReadCompleted?
    ensures NoUploads(outs)
  {
    hide Inv, OnConnected, OnMessage, Planned, OnPexTick, Cancels, Sends;
    match input
    case PeersDiscovered(addrs) => DiscoveryOnlyConnects(s.reg, addrs);
    case PeerConnected(id, direction, addr, ext) => ConnectionUploadsNothing(c, s, addr, direction, id, ext, outs, s');
    case PeerDisconnected(addr) => CancelsOnlyCancel(s.pending, Orphaned(s.pending, addr), outs);
    case MessageReceived(addr, msg) => MessageUploadsNothing(c, s, addr, msg, outs, s');
    case LocalPiece(_, _) =>
    case SetStatus(status) =>
      if !status.Uploads() {
        CancelsOnlyCancel(s.pending, s.pending.Keys, outs);
      }
    case OnTick(BlockTick) => PlannedUploadsNothing(c, s, outs, s');
    case OnTick(PexTick) => PexOnlyExtends(s, outs);
  }

  lemma ConnectionUploadsNothing(c: Config, s: State, addr: SocketAddr, direction: ConnectionDirection, id: PeerId,
                                 ext: PeerExtensions, outs: seq<Output>, s': State)
    requires Inv(c, s) && OnConnected(c, s, addr, direction, id, ext, outs, s')
    ensures NoUploads(outs)
  {
    hide Inv;
    ConnectionTransfersNothing(c, s, addr, direction, id, ext, outs, s');
  }

  // ---- The registry ----

  lemma PlannedKeepsRegistry(c: Config, s: State, outs: seq<Output>, s': State)
    requires Planned(c, s, outs, s')
    ensures s'.reg == s.reg
  {
  }

  lemma HandlerKeepsRegistry(c: Config, s: State, addr: SocketAddr, msg: M.Message)
    requires Ready(c, s)
    ensures AfterMessage(c, s, addr, msg).reg == s.reg
  {
    hide Receipt, FateOf, Ready;
  }

  lemma HandledKeepsRegistry(c: Config, s: State, addr: SocketAddr, msg: M.Message, k: nat, outs: seq<Output>,
                             s': State)
    requires Ready(c, s) && Handled(c, s, addr, msg, k, outs, s')
    ensures s'.reg == s.reg
  {
    HandlerKeepsRegistry(c, s, addr, msg);
    hide AfterMessage, MessageOutputs, Planned, Ready;
    if msg.AffectsScheduling() {
      PlannedKeepsRegistry(c, AfterMessage(c, s, addr, msg), outs[k..], s');
    }
  }
}
