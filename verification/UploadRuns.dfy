/** Conservation of upload reads over runs. */
module UploadRuns {
  import opened Bytes
  import opened Listings
  import opened Peers
  import opened PieceManagers
  import opened Registries
  import opened SwarmEvents
  import opened Scheduling
  import opened SwarmSpec
  import opened SwarmInvariants
  import opened Runs
  import M = Messages
  import X = ExtensionMessages

  // ---- How often an id occurs in a table and in a list of outputs ----

  function OwnId(rs: Reads, id: nat): map<BlockRange, nat> {
    map r | r in rs :: if rs[r].readId == id then 1 else 0
  }

  ghost function Ids(rs: Reads, id: nat): nat { Total(OwnId(rs, id)) }

  lemma IdsRemove(rs: Reads, r: BlockRange, id: nat)
    requires r in rs
    ensures Ids(rs, id) == (if rs[r].readId == id then 1 else 0) + Ids(rs - {r}, id)
  {
    TotalRemove(OwnId(rs, id), r);
    assert OwnId(rs, id) - {r} == OwnId(rs - {r}, id);
  }

  /** Waiters do not matter to the ids. */
  lemma SameIds(p: Reads, q: Reads, id: nat)
    requires p.Keys == q.Keys && forall r :: r in p ==> p[r].readId == q[r].readId
    ensures Ids(p, id) == Ids(q, id)
  {
    assert OwnId(p, id) == OwnId(q, id);
  }

  lemma NoIds(id: nat)
    ensures Ids(map[], id) == 0
  {
    assert OwnId(map[], id) == map[];
  }

  ghost function IssueIds(outs: seq<Output>, id: nat): nat {
    if outs == [] then 0
    else IssueIds(outs[..|outs| - 1],
                  id) + if outs[|outs| - 1].ReadForUpload? && outs[|outs| - 1].readId == id then 1 else 0
  }

  ghost function CancelIds(outs: seq<Output>, id: nat): nat {
    if outs == [] then 0
    else CancelIds(outs[..|outs| - 1],
                   id) + if outs[|outs| - 1].CancelUploadRead? && outs[|outs| - 1].readId == id then 1 else 0
  }

  lemma {:induction false} IdsAppend(xs: seq<Output>, ys: seq<Output>, id: nat)
    ensures IssueIds(xs + ys, id) == IssueIds(xs, id) + IssueIds(ys, id)
    ensures CancelIds(xs + ys, id) == CancelIds(xs, id) + CancelIds(ys, id)
  {
    if ys == [] {
      assert xs + ys == xs;
    } else {
      assert (xs + ys)[..|xs + ys| - 1] == xs + ys[..|ys| - 1];
      IdsAppend(xs, ys[..|ys| - 1], id);
    }
  }

  lemma OneOutput(o: Output, id: nat)
    ensures IssueIds([o], id) == if o.ReadForUpload? && o.readId == id then 1 else 0
    ensures CancelIds([o], id) == if o.CancelUploadRead? && o.readId == id then 1 else 0
  {
    assert [o][..0] == [];
  }

  ghost predicate NoReads(outs: seq<Output>) {
    forall o :: o in outs ==> !o.ReadForUpload? && !o.CancelUploadRead?
  }

  lemma {:induction false} NoReadsNoIds(outs: seq<Output>, id: nat)
    requires NoReads(outs)
    ensures IssueIds(outs, id) == CancelIds(outs, id) == 0
  {
    if outs != [] {
      NoReadsNoIds(outs[..|outs| - 1], id);
    }
  }

  /** Cancelling part of the table moves exactly its ids to the outputs. */
  lemma {:induction false} CancelsConserve(rs: Reads, order: seq<BlockRange>, which: set<BlockRange>, outs: seq<Output>,
                                           id: nat)
    requires Listing(order, which) && CancelsOf(rs, order, outs)
    ensures Ids(rs, id) == Ids(rs - which, id) + CancelIds(outs, id) && IssueIds(outs, id) == 0
    decreases |order|
  {
    hide Ids;
    if order == [] {
      assert which == {};
      assert rs - which == rs;
    } else {
      var r := order[|order| - 1];
      var init, rest := order[..|order| - 1], which - {r};
      assert Listing(init, rest);
      CancelsConserve(rs, init, rest, outs[..|outs| - 1], id);
      IdsRemove(rs - rest, r, id);
      assert rs - rest - {r} == rs - which;
    }
  }

  lemma CancelledIds(rs: Reads, which: set<BlockRange>, outs: seq<Output>, id: nat)
    requires Cancels(rs, which, outs)
    ensures Ids(rs, id) == Ids(rs - which, id) + CancelIds(outs, id) && IssueIds(outs, id) == 0
  {
    var order :| Listing(order, which) && CancelsOf(rs, order, outs);
    CancelsConserve(rs, order, which, outs, id);
  }

  // ---- One step ----

  /** A completed read is consumed when it is served; a completion without any effect consumes nothing. */
  ghost function ConsumeIds(input: Input, outs: seq<Output>, id: nat): nat {
    if input.UploadReadCompleted? && outs != [] && input.readId == id then 1 else 0
  }

  /** New reads take the next number. */
  ghost predicate Numbers(s: State, outs: seq<Output>, s': State, id: nat) {
    || (s'.nextId == s.nextId && IssueIds(outs, id) == 0)
    || (s'.nextId == s.nextId + 1 && IssueIds(outs, id) == if id == s.nextId then 1 else 0)
  }

  /** What the step took out of the table is what it cancelled, what it put in is what it issued. */
  ghost predicate Conserves(s: State, outs: seq<Output>, s': State, id: nat) {
    Ids(s.pending, id) + IssueIds(outs, id) == Ids(s'.pending, id) + CancelIds(outs, id) && Numbers(s, outs, s', id)
  }

  lemma GoneConserves(s: State, addr: SocketAddr, outs: seq<Output>, id: nat)
    requires Cancels(s.pending, Orphaned(s.pending, addr), outs)
    ensures Conserves(s, outs, AfterGone(s, addr), id)
  {
    hide Ids, Cancels, IssueIds, CancelIds;
    CancelledIds(s.pending, Orphaned(s.pending, addr), outs, id);
    SameIds(s.pending - Orphaned(s.pending, addr), WithoutWaiter(s.pending, addr), id);
  }

  lemma ConnectionConserves(c: Config, s: State, addr: SocketAddr, direction: ConnectionDirection, peer: PeerId,
                            ext: PeerExtensions, outs: seq<Output>, s': State, id: nat)
    requires OnConnected(c, s, addr, direction, peer, ext, outs, s')
    ensures Conserves(s, outs, s', id)
  {
    hide Ids, AcceptOutputs, Judge, Cancels, IssueIds, CancelIds;
    match Judge(c.clientId, s.reg, direction, peer)
    case Reject => NoReadsNoIds(outs, id);
    case Accept => AcceptReadsNothing(s.pieces, addr, ext, outs, id);
    case Replace(prev) =>
      GoneConserves(s, prev, outs[..|outs| - 3], id);
      ReplaceIds(prev, s.pieces, addr, ext, outs, id);
  }

  lemma ReplaceIds(prev: SocketAddr, pieces: seq<PieceState>, addr: SocketAddr, ext: PeerExtensions, outs: seq<Output>,
                   id: nat)
    requires |outs| >= 3 && outs[|outs| - 3] == DisconnectPeer(prev)
    requires AcceptOutputs(pieces, addr, ext, outs[|outs| - 2..])
    ensures IssueIds(outs, id) == IssueIds(outs[..|outs| - 3], id)
    ensures CancelIds(outs, id) == CancelIds(outs[..|outs| - 3], id)
  {
    hide AcceptOutputs, IssueIds, CancelIds;
    var n := |outs| - 3;
    AcceptReadsNothing(pieces, addr, ext, outs[n + 1..], id);
    NoReadsNoIds([outs[n]], id);
    assert outs == outs[..n] + [outs[n]] + outs[n + 1..];
    IdsAppend(outs[..n], [outs[n]], id);
    IdsAppend(outs[..n] + [outs[n]], outs[n + 1..], id);
  }

  lemma AcceptReadsNothing(pieces: seq<PieceState>, addr: SocketAddr, ext: PeerExtensions, outs: seq<Output>, id: nat)
    requires AcceptOutputs(pieces, addr, ext, outs)
    ensures IssueIds(outs, id) == CancelIds(outs, id) == 0
  {
    assert outs == [outs[0], outs[1]];
    NoReadsNoIds(outs, id);
  }

  lemma RequestConserves(c: Config, s: State, addr: SocketAddr, range: BlockRange, id: nat)
    requires Ready(c, s)
    ensures Conserves(s, RequestReply(c, s, range), AfterRequest(c, s, addr, range), id)
  {
    var s' := AfterRequest(c, s, addr, range);
    hide ValidUpload, Ids, Total, FateOf;
    match FateOf(c, s, range)
    case Ignored =>
    case Shared => SharedIds(s.pending, range, s'.pending[range].peers, id);
    case Fresh =>
      IdsRemove(s'.pending, range, id);
      FateFresh(c, s, range);
      assert s'.pending - {range} == s.pending;
      OneOutput(ReadForUpload(s.nextId, range), id);
  }

  lemma FateFresh(c: Config, s: State, range: BlockRange)
    requires Ready(c, s)
    ensures FateOf(c, s, range).Fresh? ==> range !in s.pending
    ensures FateOf(c, s, range).Shared? ==> range in s.pending
  {
  }

  lemma SharedIds(rs: Reads, range: BlockRange, peers: set<SocketAddr>, id: nat)
    requires range in rs
    ensures Ids(rs[range := PendingRead(rs[range].readId, peers)], id) == Ids(rs, id)
  {
    SameIds(rs, rs[range := PendingRead(rs[range].readId, peers)], id);
  }

  lemma CancelConserves(s: State, addr: SocketAddr, range: BlockRange, id: nat)
    ensures Conserves(s, CancelReply(s, addr, range), AfterCancel(s, addr, range), id)
  {
    hide Ids;
    if range in s.pending {
      if s.pending[range].peers - {addr} == {} {
        IdsRemove(s.pending, range, id);
        OneOutput(CancelUploadRead(s.pending[range].readId), id);
      } else {
        SharedIds(s.pending, range, s.pending[range].peers - {addr}, id);
      }
    }
  }

  /** Handlers other than those of `Request` and `Cancel` leave the reads alone. */
  lemma HandlerConserves(c: Config, s: State, addr: SocketAddr, msg: M.Message, outs: seq<Output>, id: nat)
    requires Ready(c, s) && MessageOutputs(c, s, addr, msg, outs)
    ensures Conserves(s, outs, AfterMessage(c, s, addr, msg), id)
  {
    hide PieceOutputs, ExtensionOutputs, Ready, Receipt, FateOf, Ids, AfterRequest, RequestReply, AfterCancel,
      CancelReply,
      IssueIds, CancelIds;
    match msg
    case Request(range) => RequestConserves(c, s, addr, range, id);
    case Cancel(range) => CancelConserves(s, addr, range, id);
    case Piece(range, data) => PieceReadsNothing(c, s, addr, range, data, outs, id);
    case Extension(extId, payload) => ExtensionReadsNothing(c, s, addr, extId, payload, outs, id);
    case _ => NoReadsNoIds(outs, id);
  }

  lemma PieceReadsNothing(c: Config, s: State, addr: SocketAddr, range: BlockRange, data: bytes, outs: seq<Output>,
                          id: nat)
    requires Ready(c, s) && PieceOutputs(c, s, addr, range, data, outs)
    ensures IssueIds(outs, id) == CancelIds(outs, id) == 0
  {
    hide CompletionOutputs, Receipt;
    var (r, pieces) := Receipt(c, s, addr, range, data);
    if r.Ok? && r.value.Some? {
      CompletionReadsNothing(r.value.value, AllComplete(pieces), s.reg.seeders, outs);
    }
    NoReadsNoIds(outs, id);
  }

  lemma CompletionReadsNothing(done: CompletedPiece, last: bool, seeders: set<SocketAddr>, outs: seq<Output>)
    requires CompletionOutputs(done, last, seeders, outs)
    ensures NoReads(outs)
  {
    if last {
      DisconnectsOnlyDisconnect(seeders, outs[3..]);
      assert outs == [outs[0], outs[1], outs[2]] + outs[3..];
    } else {
      assert outs == [outs[0], outs[1]];
    }
  }

  lemma ExtensionReadsNothing(c: Config, s: State, addr: SocketAddr, extId: byte, payload: bytes, outs: seq<Output>,
                              id: nat)
    requires ExtensionOutputs(c, s, addr, extId, payload, outs)
    ensures IssueIds(outs, id) == CancelIds(outs, id) == 0
  {
    if extId == M.UT_PEX_EXT_ID && X.DecodePex(payload).Ok? {
      var order :| Listing(order, X.DecodePex(payload).value) && outs == Discovered(s, order);
      DiscoveryOnlyConnects(s.reg, order);
    }
    NoReadsNoIds(outs, id);
  }

  lemma {:induction false} PlanOnlySends(rs: seq<BlockRequest>)
    ensures forall o :: o in RequestOutputs(rs) ==> o.SendToPeer?
  {
    if rs != [] {
      PlanOnlySends(rs[..|rs| - 1]);
    }
  }

  lemma PlannedConserves(c: Config, s: State, outs: seq<Output>, s': State, id: nat)
    requires Planned(c, s, outs, s')
    ensures IssueIds(outs, id) == CancelIds(outs, id) == 0 && s'.pending == s.pending && s'.nextId == s.nextId
  {
    if s.status.Downloads() {
      var rs :| PlansWith(c, s, rs, outs, s');
      PlanOnlySends(rs);
    }
    NoReadsNoIds(outs, id);
  }

  lemma HandledConserves(c: Config, s: State, addr: SocketAddr, msg: M.Message, k: nat, outs: seq<Output>, s': State,
                         id: nat)
    requires Ready(c, s) && Handled(c, s, addr, msg, k, outs, s')
    ensures Conserves(s, outs, s', id)
  {
    hide MessageOutputs, AfterMessage, Planned, Ids, IssueIds, CancelIds;
    assert outs == outs[..k] + outs[k..];
    HandlerConserves(c, s, addr, msg, outs[..k], id);
    IdsAppend(outs[..k], outs[k..], id);
    if msg.AffectsScheduling() {
      PlannedConserves(c, AfterMessage(c, s, addr, msg), outs[k..], s', id);
    } else {
      NoReadsNoIds(outs[k..], id);
    }
  }

  lemma MessageConserves(c: Config, s: State, addr: SocketAddr, msg: M.Message, outs: seq<Output>, s': State, id: nat)
    requires Ready(c, s) && OnMessage(c, s, addr, msg, outs, s')
    ensures Conserves(s, outs, s', id)
  {
    hide Handled, Ids, IssueIds, CancelIds;
    var applied := ApplyMessage(s.reg, |c.metainfo.pieces|, addr, msg);
    if applied.Ok? {
      var k: nat :| Handled(c, s.(reg := applied.value), addr, msg, k, outs, s');
      HandledConserves(c, s.(reg := applied.value), addr, msg, k, outs, s', id);
    } else {
      NoReadsNoIds(outs, id);
    }
  }

  /** Under the invariant a completion that finds its read is sent to every waiting peer, and to one at least. */
  lemma CompletionServes(c: Config, s: State, readId: nat, range: BlockRange, data: bytes, outs: seq<Output>, s': State)
    requires Inv(c, s) && OnReadCompleted(s, readId, range, data, outs, s')
    ensures if range in s.pending && s.pending[range].readId == readId then
              && outs != [] && Sends(s.pending[range].peers, M.Piece(range, data), outs)
              && s' == s.(pending := s.pending - {range},
                          uploaded := s.uploaded + BytesTo(|s.pending[range].peers|, |data|))
            else outs == [] && s' == s
  {
    hide Sends, RegistryOk, InFlightOk, PiecesOk;
    if range in s.pending && s.pending[range].readId == readId {
      var peers := s.pending[range].peers;
      assert ReadOk(c.metainfo, s.pieces, s.reg.peers.Keys, s.nextId, range, s.pending[range]);
      assert peers * s.reg.peers.Keys == peers;
      SendsToAll(peers, M.Piece(range, data), outs);
    }
  }

  lemma SendsToAll(to: set<SocketAddr>, message: M.Message, outs: seq<Output>)
    requires Sends(to, message, outs)
    ensures |outs| == |to| && (to != {} ==> outs != [])
  {
    var order :| Listing(order, to) && SendsOf(order, message, outs);
    ListingLength(order, to);
    if to != {} {
      var a :| a in to;
      assert a in order;
    }
  }

  lemma CompletionConserves(c: Config, s: State, readId: nat, range: BlockRange, data: bytes, outs: seq<Output>,
                            s': State, id: nat)
    requires Inv(c, s) && OnReadCompleted(s, readId, range, data, outs, s')
    ensures Ids(s.pending, id) == Ids(s'.pending, id) + ConsumeIds(UploadReadCompleted(readId, range, data), outs, id)
    ensures IssueIds(outs, id) == CancelIds(outs, id) == 0 && s'.nextId == s.nextId
  {
    CompletionServes(c, s, readId, range, data, outs, s');
    hide Inv, Ids, Sends, OnReadCompleted;
    if range in s.pending && s.pending[range].readId == readId {
      SendsOnlySend(s.pending[range].peers, M.Piece(range, data), outs);
      IdsRemove(s.pending, range, id);
    }
    NoReadsNoIds(outs, id);
  }

  lemma StatusConserves(s: State, status: SwarmStatus, outs: seq<Output>, s': State, id: nat)
    requires OnSetStatus(s, status, outs, s')
    ensures Conserves(s, outs, s', id)
  {
    hide Ids, Cancels;
    if !status.Uploads() {
      CancelledIds(s.pending, s.pending.Keys, outs, id);
      assert s.pending - s.pending.Keys == map[];
    }
  }

  lemma DiscoveredConserves(s: State, addrs: seq<SocketAddr>, id: nat)
    ensures Conserves(s, Discovered(s, addrs), s, id)
  {
    DiscoveryOnlyConnects(s.reg, addrs);
    NoReadsNoIds(Discovered(s, addrs), id);
  }

  lemma StepConserves(c: Config, s: State, input: Input, outs: seq<Output>, s': State, id: nat)
    requires Inv(c, s) && Next(c, s, input, outs, s') && !input.UploadReadCompleted?
    ensures Conserves(s, outs, s', id)
  {
    hide Inv, OnConnected, OnMessage, Planned, OnSetStatus, OnPexTick, Discovered, Cancels, Ids, IssueIds, CancelIds;
    match input
    case PeersDiscovered(addrs) => DiscoveredConserves(s, addrs, id);
    case PeerConnected(peer, direction, addr, ext) =>
      ConnectionConserves(c, s, addr, direction, peer, ext, outs, s', id);
    case PeerDisconnected(addr) => GoneConserves(s, addr, outs, id);
    case MessageReceived(addr, msg) => MessageConserves(c, s, addr, msg, outs, s', id);
    case LocalPiece(_, _) => NoReadsNoIds(outs, id);
    case SetStatus(status) => StatusConserves(s, status, outs, s', id);
    case OnTick(BlockTick) => PlannedConserves(c, s, outs, s', id);
    case OnTick(PexTick) =>
      PexOnlyExtends(s, outs);
      NoReadsNoIds(outs, id);
  }

  lemma AnyStepConserves(c: Config, s: State, input: Input, outs: seq<Output>, s': State, id: nat)
    requires Inv(c, s) && Next(c, s, input, outs, s')
    ensures Ids(s.pending, id) + IssueIds(outs, id)
        == Ids(s'.pending, id) + CancelIds(outs, id) + ConsumeIds(input, outs, id)
    ensures Numbers(s, outs, s', id)
  {
    hide Inv, Ids, IssueIds, CancelIds, OnReadCompleted;
    if input.UploadReadCompleted? {
      CompletionConserves(c, s, input.readId, input.range, input.data, outs, s', id);
    } else {
      hide Next;
      StepConserves(c, s, input, outs, s', id);
    }
  }

  // ---- Runs ----

  /** How often `id` was issued, cancelled and consumed in a run. */
  ghost function Issued(tr: Trace, id: nat): nat {
    if tr == [] then 0 else Issued(Init(tr), id) + IssueIds(tr[|tr| - 1].outs, id)
  }

  ghost function Cancelled(tr: Trace, id: nat): nat {
    if tr == [] then 0 else Cancelled(Init(tr), id) + CancelIds(tr[|tr| - 1].outs, id)
  }

  ghost function Consumed(tr: Trace, id: nat): nat {
    if tr == [] then 0 else Consumed(Init(tr), id) + ConsumeIds(tr[|tr| - 1].input, tr[|tr| - 1].outs, id)
  }

  /**
   * The numbers below the counter are issued once each and no other one ever is; and every issued
   * read is pending, cancelled or consumed, exactly one of these and exactly once.
   */
  lemma {:induction false} ReadsAreConserved(c: Config, init: State, tr: Trace, id: nat)
    requires Run(c, init, tr)
    ensures Issued(tr, id) == Ids(Last(init, tr).pending, id) + Cancelled(tr, id) + Consumed(tr, id)
    ensures Issued(tr, id) == if id < Last(init, tr).nextId then 1 else 0
  {
    hide Next, Inv, Ids, IssueIds, CancelIds, ConsumeIds;
    if tr != [] {
      var step, before := tr[|tr| - 1], Last(init, Init(tr));
      ReadsAreConserved(c, init, Init(tr), id);
      RunInv(c, init, Init(tr));
      AnyStepConserves(c, before, step.input, step.outs, step.after, id);
    } else {
      assert IsInit(c, init);
      NoIds(id);
    }
  }

  /** A completion for a read that was cancelled or already served has no effect, whatever was requested since. */
  lemma StaleCompletionIgnored(c: Config, init: State, tr: Trace, id: nat, range: BlockRange, data: bytes,
                               outs: seq<Output>, s': State)
    requires Run(c, init, tr) && Cancelled(tr, id) + Consumed(tr, id) > 0 && Ready(c, Last(init, tr))
    requires Next(c, Last(init, tr), UploadReadCompleted(id, range, data), outs, s')
    ensures outs == [] && s' == Last(init, tr)
  {
    var s := Last(init, tr);
    hide Ready, Run, Ids;
    ReadsAreConserved(c, init, tr, id);
    if range in s.pending {
      IdsRemove(s.pending, range, id);
    }
  }

  /** Pending reads are numbered apart, of verified bytes, for registered peers, and at most 32 peers wait. */
  lemma PendingReadsAreSound(c: Config, init: State, tr: Trace)
    requires Run(c, init, tr)
    ensures var s := Last(init, tr);
      && DistinctIds(s.pending) && Total(Waiters(s.pending)) <= MAX_PENDING_UPLOADS
      && (!s.status.Uploads() ==> s.pending == map[])
      && |s.pieces| == |c.metainfo.pieces|
      && forall r :: r in s.pending ==> ReadOk(c.metainfo, s.pieces, s.reg.peers.Keys, s.nextId, r, s.pending[r])
  {
    RunInv(c, init, tr);
  }

  // ---- What is counted as uploaded ----

  /** The bytes of all `Piece` messages among the outputs. */
  ghost function SentBytes(outs: seq<Output>): nat {
    if outs == [] then 0
    else
      var o := outs[|outs| - 1];
      SentBytes(outs[..|outs| - 1]) + if o.SendToPeer? && o.message.Piece? then |o.message.data| else 0
  }

  lemma {:induction false} NoUploadsNoBytes(outs: seq<Output>)
    requires NoUploads(outs)
    ensures SentBytes(outs) == 0
  {
    if outs != [] {
      assert outs[|outs| - 1] in outs;
      NoUploadsNoBytes(outs[..|outs| - 1]);
    }
  }

  lemma {:induction false} CopiesSent(order: seq<SocketAddr>, range: BlockRange, data: bytes, outs: seq<Output>)
    requires SendsOf(order, M.Piece(range, data), outs)
    ensures SentBytes(outs) == BytesTo(|outs|, |data|)
    decreases |order|
  {
    if order == [] {
      assert BytesTo(0, |data|) == 0;
    } else {
      CopiesSent(order[..|order| - 1], range, data, outs[..|outs| - 1]);
      assert BytesTo(|outs|, |data|) == BytesTo(|outs| - 1, |data|) + |data|;
    }
  }

  lemma HandlerCountsNothing(c: Config, s: State, addr: SocketAddr, msg: M.Message)
    requires Ready(c, s)
    ensures AfterMessage(c, s, addr, msg).uploaded == s.uploaded
  {
    hide Receipt, FateOf, Ready;
  }

  lemma HandledCountsNothing(c: Config, s: State, addr: SocketAddr, msg: M.Message, k: nat, outs: seq<Output>,
                             s': State)
    requires Ready(c, s) && Handled(c, s, addr, msg, k, outs, s')
    ensures s'.uploaded == s.uploaded
  {
    HandlerCountsNothing(c, s, addr, msg);
    hide AfterMessage, MessageOutputs, Ready, IsPlan, Budget;
  }

  lemma OtherStepCountsNothing(c: Config, s: State, input: Input, outs: seq<Output>, s': State)
    requires Inv(c, s) && Next(c, s, input, outs, s') && !input.UploadReadCompleted?
    ensures s'.uploaded == s.uploaded
  {
    hide Inv, Handled, OnPexTick, Cancels, IsPlan, Budget, AcceptOutputs, Judge;
    if input.MessageReceived? {
      var applied := ApplyMessage(s.reg, |c.metainfo.pieces|, input.addr, input.message);
      if applied.Ok? {
        var s1 := s.(reg := applied.value);
        SameReady(c, s, s1);
        var k: nat :| Handled(c, s1, input.addr, input.message, k, outs, s');
        HandledCountsNothing(c, s1, input.addr, input.message, k, outs, s');
      }
    }
  }

  lemma StepCountsSent(c: Config, s: State, input: Input, outs: seq<Output>, s': State)
    requires Inv(c, s) && Next(c, s, input, outs, s')
    ensures s'.uploaded == s.uploaded + SentBytes(outs)
  {
    if input.UploadReadCompleted? {
      CompletionServes(c, s, input.readId, input.range, input.data, outs, s');
      if outs != [] {
        var to, message := s.pending[input.range].peers, M.Piece(input.range, input.data);
        SendsToAll(to, message, outs);
        var order :| Listing(order, to) && SendsOf(order, message, outs);
        CopiesSent(order, input.range, input.data, outs);
      }
    } else {
      OtherStepCountsNothing(c, s, input, outs, s');
      UploadsFollowReads(c, s, input, outs, s');
      NoUploadsNoBytes(outs);
    }
  }

  ghost function SentIn(tr: Trace): nat {
    if tr == [] then 0 else SentIn(Init(tr)) + SentBytes(tr[|tr| - 1].outs)
  }

  /** The upload counter is the number of bytes of all `Piece` messages sent since the start. */
  lemma {:induction false} UploadedIsSent(c: Config, init: State, tr: Trace)
    requires Run(c, init, tr)
    ensures Last(init, tr).uploaded == SentIn(tr)
  {
    hide Next, Inv, SentBytes;
    if tr == [] {
      assert IsInit(c, init);
    } else {
      var step, before := tr[|tr| - 1], Last(init, Init(tr));
      UploadedIsSent(c, init, Init(tr));
      RunInv(c, init, Init(tr));
      StepCountsSent(c, before, step.input, step.outs, step.after);
    }
  }
}
