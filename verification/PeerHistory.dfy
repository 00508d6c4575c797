/** What the registry holds of each peer is what that peer has said since it connected (swarm/peer_registry.rs). */
module PeerHistory {
  import opened Wrappers
  import opened Bytes
  import opened Peers
  import opened Registries
  import opened SwarmEvents
  import opened SwarmSpec
  import opened SwarmInvariants
  import opened Runs
  import opened UploadPolicy
  import PlanRuns
  import RegistryRuns
  import WireFormat
  import M = Messages

  // ---- Duplicate connections ----

  /** A second connection of an identity that is not of the other, preferred direction. */
  ghost predicate Refused(c: Config, s: State, id: PeerId, direction: ConnectionDirection) {
    && id in s.reg.byId
    && (s.reg.byId[id].1 == direction || !(direction.Outbound? <==> Less(id, c.clientId)))
  }

  /** A peer of which only the connection is known. */
  function JustConnected(id: PeerId, fast: bool): PeerState {
    PeerState(id, true, false, {}, {}, fast, None, 0, 0)
  }

  /** The connection that has to go when an identity connects once more. */
  function Previous(s: State, id: PeerId): set<SocketAddr> {
    if id in s.reg.byId then {s.reg.byId[id].0} else {}
  }

  lemma JudgedAs(c: Config, s: State, id: PeerId, direction: ConnectionDirection)
    ensures Judge(c.clientId, s.reg, direction, id)
         == if Refused(c, s, id, direction) then Reject
            else if id in s.reg.byId then Replace(s.reg.byId[id].0) else Accept
  {
  }

  /**
   * A refused connection is closed and changes nothing. Another one is greeted and told our interest, after the
   * previous connection of its identity, if there is one, has been closed and forgotten; its address is asked for
   * nothing yet.
   */
  lemma DuplicatesAreResolved(c: Config, s: State, addr: SocketAddr, direction: ConnectionDirection, id: PeerId,
                              ext: PeerExtensions, outs: seq<Output>, s': State)
    requires Inv(c, s) && Next(c, s, PeerConnected(id, direction, addr, ext), outs, s')
    ensures Refused(c, s, id, direction) ==> outs == [DisconnectPeer(addr)] && s' == s
    ensures !Refused(c, s, id, direction) ==>
      && |outs| >= 2 && outs[|outs| - 1] == SendToPeer(addr, M.Interested)
      && outs[|outs| - 2].SendToPeer? && outs[|outs| - 2].addr == addr
      && s'.reg.peers == (s.reg.peers - Previous(s, id))[addr := JustConnected(id, ext.fast)]
      && id in s'.reg.byId && s'.reg.byId[id] == (addr, direction)
      && (forall p, a :: Has(s'.reg.byPiece, p, a) <==> Has(s.reg.byPiece, p, a) && a !in Previous(s, id))
      && s'.reg.seeders == s.reg.seeders - Previous(s, id) && s'.reg.leechers == s.reg.leechers - Previous(s, id)
      && s'.inFlight == s.inFlight - Previous(s, id) - {addr}
    ensures !Refused(c, s, id, direction) && id !in s.reg.byId ==> |outs| == 2
    ensures !Refused(c, s, id, direction) && id in s.reg.byId ==>
      && |outs| >= 3 && outs[|outs| - 3] == DisconnectPeer(s.reg.byId[id].0)
      && forall o :: o in outs[..|outs| - 3] ==> o.CancelUploadRead?
  {
    JudgedAs(c, s, id, direction);
    hide Inv, Refused, Judge, Cancels, WithoutPeer, WithoutWaiter;
    if !Refused(c, s, id, direction) && id in s.reg.byId {
      var prev := s.reg.byId[id].0;
      CancelsOnlyCancel(s.pending, Orphaned(s.pending, prev), outs[..|outs| - 3]);
      RemovalHas(s.reg.byPiece, prev);
      assert outs[|outs| - 2..][0] == outs[|outs| - 2] && outs[|outs| - 2..][1] == outs[|outs| - 1];
      assert s.inFlight - Previous(s, id) - {addr} == s.inFlight - {prev} - {addr};
    } else {
      assert s.inFlight - {} - {addr} == s.inFlight - {addr};
      assert s.reg.peers - {} == s.reg.peers;
    }
  }

  /** A disconnected peer is forgotten: nothing is known of it, asked of it, or read for it alone. */
  lemma GoneIsForgotten(c: Config, s: State, addr: SocketAddr, outs: seq<Output>, s': State)
    requires Inv(c, s) && Next(c, s, PeerDisconnected(addr), outs, s')
    ensures s'.reg.peers == s.reg.peers - {addr} && s'.inFlight == s.inFlight - {addr}
    ensures forall p, a :: Has(s'.reg.byPiece, p, a) <==> Has(s.reg.byPiece, p, a) && a != addr
    ensures s'.reg.seeders == s.reg.seeders - {addr} && s'.reg.leechers == s.reg.leechers - {addr}
    ensures forall id :: id in s'.reg.byId <==> id in s.reg.byId && !(addr in s.reg.peers && s.reg.peers[addr].id == id)
    ensures forall id :: id in s'.reg.byId ==> s'.reg.byId[id] == s.reg.byId[id]
  {
    if addr in s.reg.peers {
      IndexOf(c, s, addr);
    }
    RemovalHas(s.reg.byPiece, addr);
    hide Inv, Cancels, WithoutPeer, WithoutWaiter;
  }

  lemma IndexOf(c: Config, s: State, addr: SocketAddr)
    requires Inv(c, s) && addr in s.reg.peers
    ensures s.reg.peers[addr].id in s.reg.byId && s.reg.byId[s.reg.peers[addr].id].0 == addr
  {
  }

  // ---- What a peer has said ----

  /** An identity, whether it negotiated the fast extension, and every message taken from it since it connected. */
  datatype Known = Known(id: PeerId, fast: bool, heard: seq<M.Message>)

  type Histories = map<SocketAddr, Known>

  predicate IsFast(msg: M.Message) {
    msg.HaveAll? || msg.HaveNone? || msg.SuggestPiece? || msg.RejectRequest? || msg.AllowedFast?
  }

  ghost function HistoriesAfter(c: Config, s: State, hs: Histories, input: Input): Histories {
    match input
    case PeerConnected(id, direction, addr, ext) =>
      if Refused(c, s, id, direction) then hs else (hs - Previous(s, id))[addr := Known(id, ext.fast, [])]
    case PeerDisconnected(addr) => hs - {addr}
    case MessageReceived(addr, msg) =>
      if addr in hs && (IsFast(msg) ==> hs[addr].fast) then
        hs[addr := Known(hs[addr].id, hs[addr].fast, hs[addr].heard + [msg])]
      else hs
    case _ => hs
  }

  ghost function HistoriesOf(c: Config, init: State, tr: Trace): Histories {
    if tr == [] then map[]
    else HistoriesAfter(c, Last(init, Init(tr)), HistoriesOf(c, init, Init(tr)), tr[|tr| - 1].input)
  }

  function ReceivedBytes(heard: seq<M.Message>): nat {
    if heard == [] then 0
    else ReceivedBytes(heard[..|heard| - 1])
         + match heard[|heard| - 1] case Piece(_, data) => |data| case _ => 0
  }

  function RequestedBytes(heard: seq<M.Message>): nat {
    if heard == [] then 0
    else RequestedBytes(heard[..|heard| - 1])
         + match heard[|heard| - 1] case Request(range) => range.len case _ => 0
  }

  ghost predicate LastHandshake(heard: seq<M.Message>, hs: M.ExtHandshake) {
    exists i :: 0 <= i < |heard| && heard[i] == M.ExtensionHandshake(hs)
             && forall j :: i < j < |heard| ==> !heard[j].ExtensionHandshake?
  }

  /** Every unchoking was followed by a choking. */
  ghost predicate ChokedLast(heard: seq<M.Message>) {
    forall i :: 0 <= i < |heard| && heard[i].Unchoke? ==> exists j :: i < j < |heard| && heard[j].Choke?
  }

  /** Interest was declared and not taken back since. */
  ghost predicate InterestedLast(heard: seq<M.Message>) {
    exists i :: 0 <= i < |heard| && heard[i].Interested? && forall j :: i < j < |heard| ==> !heard[j].NotInterested?
  }

  /** The record of a peer tells its history. */
  ghost predicate Tells(p: PeerState, k: Known) {
    && p.id == k.id && p.fast == k.fast
    && (p.peerChoking <==> ChokedLast(k.heard)) && (p.peerInterested <==> InterestedLast(k.heard))
    && (forall n :: n in p.allowedFast <==> M.AllowedFast(n) in k.heard)
    && (forall n :: n in p.suggested <==> M.SuggestPiece(n) in k.heard)
    && (p.extensions.None? <==> forall m :: m in k.heard ==> !m.ExtensionHandshake?)
    && (p.extensions.Some? ==> LastHandshake(k.heard, p.extensions.value))
    && p.bytesDownloaded == ReceivedBytes(k.heard) && p.bytesUploaded == RequestedBytes(k.heard)
  }

  ghost predicate AllTell(peers: map<SocketAddr, PeerState>, hs: Histories) {
    peers.Keys == hs.Keys && forall a :: a in peers ==> Tells(peers[a], hs[a])
  }

  lemma NothingHeard(id: PeerId, fast: bool)
    ensures Tells(JustConnected(id, fast), Known(id, fast, []))
  {
  }

  lemma ChokedMore(heard: seq<M.Message>, msg: M.Message)
    ensures ChokedLast(heard + [msg]) <==> msg.Choke? || (!msg.Unchoke? && ChokedLast(heard))
  {
    var more := heard + [msg];
    assert forall i :: 0 <= i < |heard| ==> more[i] == heard[i];
    if msg.Choke? {
      assert more[|heard|].Choke?;
    } else if msg.Unchoke? {
      assert more[|heard|].Unchoke?;
    } else if ChokedLast(more) {
      forall i | 0 <= i < |heard| && heard[i].Unchoke? ensures exists j :: i < j < |heard| && heard[j].Choke? {
        assert more[i].Unchoke?;
      }
    }
  }

  lemma InterestedMore(heard: seq<M.Message>, msg: M.Message)
    ensures InterestedLast(heard + [msg]) <==> msg.Interested? || (!msg.NotInterested? && InterestedLast(heard))
  {
    var more := heard + [msg];
    assert forall i :: 0 <= i < |heard| ==> more[i] == heard[i];
    if msg.Interested? {
      assert more[|heard|].Interested?;
    } else if msg.NotInterested? {
      assert more[|heard|].NotInterested?;
    } else if InterestedLast(heard) {
      var i :| 0 <= i < |heard| && heard[i].Interested? && forall j :: i < j < |heard| ==> !heard[j].NotInterested?;
      assert more[i].Interested?;
    }
  }

  lemma HandshakeMore(heard: seq<M.Message>, msg: M.Message, hs: M.ExtHandshake)
    requires if msg.ExtensionHandshake? then msg.handshake == hs else LastHandshake(heard, hs)
    ensures LastHandshake(heard + [msg], hs)
  {
    var more := heard + [msg];
    if msg.ExtensionHandshake? {
      assert more[|heard|] == M.ExtensionHandshake(hs);
    } else {
      var i :| && 0 <= i < |heard| && heard[i] == M.ExtensionHandshake(hs)
               && forall j :: i < j < |heard| ==> !heard[j].ExtensionHandshake?;
      assert more[i] == M.ExtensionHandshake(hs);
    }
  }

  lemma BytesMore(heard: seq<M.Message>, msg: M.Message)
    ensures ReceivedBytes(heard + [msg]) == ReceivedBytes(heard) + if msg.Piece? then |msg.data| else 0
    ensures RequestedBytes(heard + [msg]) == RequestedBytes(heard) + if msg.Request? then msg.range.len else 0
  {
    assert (heard + [msg])[..|heard|] == heard;
  }

  /** One more message keeps the record up to date. */
  lemma HeardMore(p: PeerState, k: Known, msg: M.Message)
    requires Tells(p, k)
    ensures Tells(ApplyToPeer(p, msg), Known(k.id, k.fast, k.heard + [msg]))
  {
    var p' := ApplyToPeer(p, msg);
    ChokedMore(k.heard, msg);
    InterestedMore(k.heard, msg);
    BytesMore(k.heard, msg);
    hide ChokedLast, InterestedLast, LastHandshake, ReceivedBytes, RequestedBytes;
    if p'.extensions.Some? {
      HandshakeMore(k.heard, msg, p'.extensions.value);
    }
    assert forall m :: m in k.heard + [msg] <==> m in k.heard || m == msg;
  }

  lemma MessageTells(c: Config, s: State, hs: Histories, addr: SocketAddr, msg: M.Message)
    requires AllTell(s.reg.peers, hs)
    ensures AllTell(RegistryRuns.R.Step(s.reg, |c.metainfo.pieces|, MessageFrom(addr, msg)).peers,
                    HistoriesAfter(c, s, hs, MessageReceived(addr, msg)))
  {
    hide Tells, ApplyToPeer, IndexAfter, SeederIn;
    if addr in hs {
      TellsFast(s.reg.peers[addr], hs[addr]);
      HeardMore(s.reg.peers[addr], hs[addr], msg);
    }
  }

  lemma TellsFast(p: PeerState, k: Known)
    requires Tells(p, k)
    ensures p.fast == k.fast
  {
  }

  lemma StepTells(c: Config, s: State, input: Input, outs: seq<Output>, s': State, hs: Histories)
    requires Inv(c, s) && Next(c, s, input, outs, s') && AllTell(s.reg.peers, hs)
    ensures AllTell(s'.reg.peers, HistoriesAfter(c, s, hs, input))
  {
    hide Inv, Next, Tells, Refused, JustConnected;
    if input.PeerConnected? {
      NothingHeard(input.id, input.extensions.fast);
      DuplicatesAreResolved(c, s, input.addr, input.direction, input.id, input.extensions, outs, s');
    } else if input.PeerDisconnected? {
      GoneIsForgotten(c, s, input.addr, outs, s');
    } else {
      OtherStepTells(c, s, input, outs, s', hs);
    }
  }

  lemma OtherStepTells(c: Config, s: State, input: Input, outs: seq<Output>, s': State, hs: Histories)
    requires Inv(c, s) && Next(c, s, input, outs, s') && AllTell(s.reg.peers, hs)
    requires !input.PeerConnected? && !input.PeerDisconnected?
    ensures AllTell(s'.reg.peers, HistoriesAfter(c, s, hs, input))
  {
    var total := |c.metainfo.pieces|;
    PlanRuns.InvReady(c, s);
    hide Inv, Ready, Next, AllTell;
    RegistryRuns.StepEvents(c, s, input, outs, s');
    if input.MessageReceived? {
      hide HistoriesAfter, ApplyMessage;
      RegistryRuns.OneEvent(s.reg, total, MessageFrom(input.addr, input.message));
      MessageTells(c, s, hs, input.addr, input.message);
    }
  }

  /**
   * After every run exactly those are registered that have connected and not gone since, and what is recorded of
   * each of them is what its messages said since: whether it chokes us and wants our pieces, what it allows and
   * suggests, its last extension handshake, and the bytes it sent and asked for.
   */
  lemma {:induction false} RegistryTellsHistory(c: Config, init: State, tr: Trace)
    requires Run(c, init, tr)
    ensures AllTell(Last(init, tr).reg.peers, HistoriesOf(c, init, tr))
  {
    hide Next, Inv, Tells, HistoriesAfter;
    if tr == [] {
      assert IsInit(c, init);
    } else {
      var step, before := tr[|tr| - 1], Last(init, Init(tr));
      RegistryTellsHistory(c, init, Init(tr));
      RunInv(c, init, Init(tr));
      StepTells(c, before, step.input, step.outs, step.after, HistoriesOf(c, init, Init(tr)));
    }
  }

  // ---- Seeders and leechers ----

  /** The sender of a message is classified by what the index then has of it, and nobody else is. */
  lemma SenderIsClassified(c: Config, s: State, addr: SocketAddr, msg: M.Message, outs: seq<Output>, s': State)
    requires Inv(c, s) && Next(c, s, MessageReceived(addr, msg), outs, s') && Taken(s, addr, msg)
    ensures addr in s'.reg.seeders <==>
      forall p: nat :: p < |c.metainfo.pieces| ==> p in s'.reg.byPiece && addr in s'.reg.byPiece[p]
    ensures addr in s'.reg.leechers <==> addr !in s'.reg.seeders
    ensures s'.reg.seeders - {addr} == s.reg.seeders - {addr} && s'.reg.leechers - {addr} == s.reg.leechers - {addr}
  {
    hide Inv, Next, Handled, Ready;
    var s1, k := TakenHandled(c, s, addr, msg, outs, s');
    HandledKeepsRegistry(c, s1, addr, msg, k, outs, s');
    Classification(s.reg, |c.metainfo.pieces|, addr, msg);
  }

  lemma Classification(r: Registry, total: nat, addr: SocketAddr, msg: M.Message)
    requires ApplyMessage(r, total, addr, msg).Ok?
    ensures var r' := ApplyMessage(r, total, addr, msg).value;
      && (addr in r'.seeders <==> forall p: nat :: p < total ==> p in r'.byPiece && addr in r'.byPiece[p])
      && (addr in r'.leechers <==> addr !in r'.seeders)
      && r'.seeders - {addr} == r.seeders - {addr} && r'.leechers - {addr} == r.leechers - {addr}
  {
    hide IndexAfter, ApplyToPeer;
    var r' := ApplyMessage(r, total, addr, msg).value;
    assert forall p: nat :: Has(r'.byPiece, p, addr) <==> p in r'.byPiece && addr in r'.byPiece[p];
  }

  // ---- Which pieces a peer has ----

  /** A message says that its sender has a piece. */
  ghost predicate SaysHas(msg: M.Message, total: nat, n: nat) {
    match msg
    case Have(piece) => piece == n
    case HaveAll => n < total
    case Bitfield(bits) => n < 8 * |bits| && bits[n / 8] / [128, 64, 32, 16, 8, 4, 2, 1][n % 8] % 2 == 1
    case _ => false
  }

  /** Some message says it, and none since has started over. */
  ghost predicate LastWord(heard: seq<M.Message>, total: nat, n: nat) {
    exists i :: 0 <= i < |heard| && SaysHas(heard[i], total, n)
             && forall j :: i < j < |heard| ==> !heard[j].Bitfield? && !heard[j].HaveNone?
  }

  lemma LastWordMore(heard: seq<M.Message>, msg: M.Message, total: nat, n: nat)
    ensures LastWord(heard + [msg], total, n)
      <==> SaysHas(msg, total, n) || (!msg.Bitfield? && !msg.HaveNone? && LastWord(heard, total, n))
  {
    var more := heard + [msg];
    assert forall i :: 0 <= i < |heard| ==> more[i] == heard[i];
    hide SaysHas;
    if SaysHas(msg, total, n) {
      assert SaysHas(more[|heard|], total, n);
    } else if LastWord(heard, total, n) && !msg.Bitfield? && !msg.HaveNone? {
      var i :| && 0 <= i < |heard| && SaysHas(heard[i], total, n)
               && forall j :: i < j < |heard| ==> !heard[j].Bitfield? && !heard[j].HaveNone?;
      assert SaysHas(more[i], total, n);
    }
    if LastWord(more, total, n) && !SaysHas(msg, total, n) {
      LastWordLess(heard, msg, total, n);
    }
  }

  lemma LastWordLess(heard: seq<M.Message>, msg: M.Message, total: nat, n: nat)
    requires LastWord(heard + [msg], total, n) && !SaysHas(msg, total, n)
    ensures LastWord(heard, total, n) && !msg.Bitfield? && !msg.HaveNone?
  {
    hide SaysHas;
    var more := heard + [msg];
    assert more[|heard|] == msg;
    var i :| && 0 <= i < |more| && SaysHas(more[i], total, n)
             && forall j :: i < j < |more| ==> !more[j].Bitfield? && !more[j].HaveNone?;
    assert more[i] == heard[i];
    forall j | i < j < |heard| ensures !heard[j].Bitfield? && !heard[j].HaveNone? {
      assert more[j] == heard[j];
    }
  }

  lemma ClaimSays(claim: set<nat>, msg: M.Message, total: nat, n: nat)
    ensures n in ClaimAfter(claim, total, msg)
      <==> SaysHas(msg, total, n) || (!msg.Bitfield? && !msg.HaveNone? && n in claim)
  {
    if msg.Bitfield? {
      WireFormat.BitIs(msg.bits, n);
    }
  }

  /** The claims told by the connected peers are the last words of their histories. */
  ghost predicate ClaimsTell(claims: Claims, hs: Histories, total: nat) {
    forall a, n: nat :: n in ClaimOf(claims, a) <==> a in hs && LastWord(hs[a].heard, total, n)
  }

  lemma MessageClaims(c: Config, s: State, claims: Claims, hs: Histories, addr: SocketAddr, msg: M.Message)
    requires ClaimsTell(claims, hs, |c.metainfo.pieces|) && AllTell(s.reg.peers, hs)
    ensures ClaimsTell(RegistryRuns.ToldAfter(c, s, claims, MessageReceived(addr, msg)),
                       HistoriesAfter(c, s, hs, MessageReceived(addr, msg)), |c.metainfo.pieces|)
  {
    var total, input := |c.metainfo.pieces|, MessageReceived(addr, msg);
    var claims', hs' := RegistryRuns.ToldAfter(c, s, claims, input), HistoriesAfter(c, s, hs, input);
    hide Tells, LastWord, SaysHas, ClaimAfter, IndexAfter, SeederIn, ApplyToPeer;
    if addr in hs {
      TellsFast(s.reg.peers[addr], hs[addr]);
    }
    forall a, n: nat ensures n in ClaimOf(claims', a) <==> a in hs' && LastWord(hs'[a].heard, total, n) {
      assert n in ClaimOf(claims, a) <==> (a in hs && LastWord(hs[a].heard, total, n));
      if a == addr && addr in hs && (IsFast(msg) ==> hs[addr].fast) {
        ClaimSays(ClaimOf(claims, addr), msg, total, n);
        LastWordMore(hs[addr].heard, msg, total, n);
      }
    }
  }

  lemma NothingSaid(total: nat, n: nat)
    ensures !LastWord([], total, n)
  {
  }

  lemma ConnectionClaims(c: Config, s: State, claims: Claims, hs: Histories, input: Input)
    requires input.PeerConnected? && ClaimsTell(claims, hs, |c.metainfo.pieces|)
    ensures ClaimsTell(RegistryRuns.ToldAfter(c, s, claims, input), HistoriesAfter(c, s, hs, input),
                       |c.metainfo.pieces|)
  {
    var total := |c.metainfo.pieces|;
    var claims', hs' := RegistryRuns.ToldAfter(c, s, claims, input), HistoriesAfter(c, s, hs, input);
    JudgedAs(c, s, input.id, input.direction);
    hide Judge, Refused, LastWord;
    forall a, n: nat ensures n in ClaimOf(claims', a) <==> a in hs' && LastWord(hs'[a].heard, total, n) {
      assert n in ClaimOf(claims, a) <==> (a in hs && LastWord(hs[a].heard, total, n));
      NothingSaid(total, n);
    }
  }

  lemma GoneClaims(claims: Claims, hs: Histories, addr: SocketAddr, total: nat)
    requires ClaimsTell(claims, hs, total)
    ensures ClaimsTell(claims - {addr}, hs - {addr}, total)
  {
    hide LastWord;
    forall a, n: nat
      ensures n in ClaimOf(claims - {addr}, a) <==> a in hs - {addr} && LastWord((hs - {addr})[a].heard, total, n) {
      assert n in ClaimOf(claims, a) <==> (a in hs && LastWord(hs[a].heard, total, n));
    }
  }

  lemma StepClaims(c: Config, s: State, claims: Claims, hs: Histories, input: Input)
    requires ClaimsTell(claims, hs, |c.metainfo.pieces|) && AllTell(s.reg.peers, hs)
    ensures ClaimsTell(RegistryRuns.ToldAfter(c, s, claims, input), HistoriesAfter(c, s, hs, input),
                       |c.metainfo.pieces|)
  {
    hide AllTell, ClaimsTell;
    if input.PeerConnected? {
      hide RegistryRuns.ToldAfter, HistoriesAfter;
      ConnectionClaims(c, s, claims, hs, input);
    } else if input.MessageReceived? {
      hide RegistryRuns.ToldAfter, HistoriesAfter;
      MessageClaims(c, s, claims, hs, input.addr, input.message);
    } else if input.PeerDisconnected? {
      GoneClaims(claims, hs, input.addr, |c.metainfo.pieces|);
    }
  }

  lemma {:induction false} ClaimsOfRun(c: Config, init: State, tr: Trace)
    requires Run(c, init, tr)
    ensures ClaimsTell(RegistryRuns.Told(c, init, tr), HistoriesOf(c, init, tr), |c.metainfo.pieces|)
  {
    hide Next, Ready, Tells, HistoriesAfter, RegistryRuns.ToldAfter, LastWord;
    if tr != [] {
      var step, before := tr[|tr| - 1], Last(init, Init(tr));
      ClaimsOfRun(c, init, Init(tr));
      RegistryTellsHistory(c, init, Init(tr));
      hide ClaimsTell, AllTell;
      StepClaims(c, before, RegistryRuns.Told(c, init, Init(tr)), HistoriesOf(c, init, Init(tr)), step.input);
    }
  }

  /**
   * After every run in which no connection took over an address that the index still had something for, the index
   * lists a peer for a piece exactly if the last word of that peer, since it connected, is that it has the piece.
   */
  lemma IndexTellsHistory(c: Config, init: State, tr: Trace, n: nat, a: SocketAddr)
    requires Run(c, init, tr) && RegistryRuns.NeverTakesOver(c, init, tr)
    ensures var byPiece, hs := Last(init, tr).reg.byPiece, HistoriesOf(c, init, tr);
      n in byPiece && a in byPiece[n] <==> a in hs && LastWord(hs[a].heard, |c.metainfo.pieces|, n)
  {
    var claims := RegistryRuns.Told(c, init, tr);
    hide Run, RegistryRuns.NeverTakesOver, LastWord;
    RegistryRuns.AvailabilityIsCurrentIff(c, init, tr);
    CurrentTells(c, init, tr, n, a);
    ClaimsOfRun(c, init, tr);
    var hs := HistoriesOf(c, init, tr);
    assert n in ClaimOf(claims, a) <==> (a in hs && LastWord(hs[a].heard, |c.metainfo.pieces|, n));
  }

  lemma CurrentTells(c: Config, init: State, tr: Trace, n: nat, a: SocketAddr)
    requires RegistryRuns.AlwaysCurrent(c, init, tr)
    ensures var byPiece := Last(init, tr).reg.byPiece;
      n in byPiece && a in byPiece[n] <==> n in ClaimOf(RegistryRuns.Told(c, init, tr), a)
  {
    assert Has(Last(init, tr).reg.byPiece, n, a) <==> n in ClaimOf(RegistryRuns.Told(c, init, tr), a);
  }
}
