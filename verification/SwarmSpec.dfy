/** The swarm as a transition system on values: what each step may output and where it leads (swarm.rs). */
module SwarmSpec {
  import opened Wrappers
  import opened Bytes
  import opened Listings
  import opened Peers
  import opened Torrents
  import opened PieceManagers
  import opened Assignments
  import opened Registries
  import opened SwarmEvents
  import opened Scheduling
  import M = Messages
  import X = ExtensionMessages
  import Bitfields

  datatype Config = Config(clientId: PeerId, metainfo: Metainfo, sha: bytes -> Hash)

  /** One disk read shared by every peer that asked for the same range. */
  datatype PendingRead = PendingRead(readId: nat, peers: set<SocketAddr>)

  type Reads = map<BlockRange, PendingRead>

  datatype State = State(
    reg: Registry, inFlight: InFlight, pieces: seq<PieceState>, status: SwarmStatus,
    downloaded: nat, uploaded: nat, pending: Reads, nextId: nat)

  const MAX_PENDING_UPLOADS: nat := 32

  const UT_METADATA := M.Ascii("ut_metadata")
  const UT_PEX := M.Ascii("ut_pex")

  ghost predicate Ready(c: Config, s: State) {
    Coherent(c.metainfo) && PiecesOk(c.metainfo, s.pieces)
  }

  ghost predicate IsInit(c: Config, s: State) {
    && Coherent(c.metainfo) && |s.pieces| == |c.metainfo.pieces|
    && (forall i :: 0 <= i < |s.pieces| ==> s.pieces[i] == NewPieceOf(c.metainfo, i))
    && s == State(EMPTY, map[], s.pieces, Active, 0, 0, map[], 0)
  }

  // ---- Sums over a table ----

  ghost function Total<K(!new)>(m: map<K, nat>): nat
    decreases |m|
  {
    if m == map[] then 0 else var k :| k in m; m[k] + Total(m - {k})
  }

  lemma {:induction false} TotalRemove<K(!new)>(m: map<K, nat>, k: K)
    requires k in m
    ensures Total(m) == m[k] + Total(m - {k})
    decreases |m|
  {
    var x :| x in m && Total(m) == m[x] + Total(m - {x});
    if x != k {
      TotalRemove(m - {x}, k);
      TotalRemove(m - {k}, x);
      assert m - {x} - {k} == m - {k} - {x};
    }
  }

  lemma TotalInsert<K(!new)>(m: map<K, nat>, k: K, n: nat)
    ensures Total(m[k := n]) == n + Total(m - {k})
  {
    TotalRemove(m[k := n], k);
    assert m[k := n] - {k} == m - {k};
  }

  /** Removing entries or lowering counts lowers the sum. */
  lemma {:induction false} TotalMonotone<K(!new)>(m: map<K, nat>, n: map<K, nat>)
    requires forall k :: k in m ==> k in n && m[k] <= n[k]
    ensures Total(m) <= Total(n)
    decreases |m|
  {
    if m != map[] {
      var k :| k in m;
      TotalRemove(m, k);
      TotalRemove(n, k);
      TotalMonotone(m - {k}, n - {k});
    }
  }

  // ---- Outputs in the order of a hash table ----

  ghost predicate CancelsOf(rs: Reads, order: seq<BlockRange>, outs: seq<Output>) {
    && |outs| == |order|
    && forall i :: 0 <= i < |order| ==> order[i] in rs && outs[i] == CancelUploadRead(rs[order[i]].readId)
  }

  ghost predicate Cancels(rs: Reads, which: set<BlockRange>, outs: seq<Output>) {
    exists order :: Listing(order, which) && CancelsOf(rs, order, outs)
  }

  ghost predicate SendsOf(order: seq<SocketAddr>, message: M.Message, outs: seq<Output>) {
    |outs| == |order| && forall i :: 0 <= i < |order| ==> outs[i] == SendToPeer(order[i], message)
  }

  ghost predicate Sends(to: set<SocketAddr>, message: M.Message, outs: seq<Output>) {
    exists order :: Listing(order, to) && SendsOf(order, message, outs)
  }

  ghost predicate DisconnectsOf(order: seq<SocketAddr>, outs: seq<Output>) {
    |outs| == |order| && forall i :: 0 <= i < |order| ==> outs[i] == DisconnectPeer(order[i])
  }

  ghost predicate Disconnects(to: set<SocketAddr>, outs: seq<Output>) {
    exists order :: Listing(order, to) && DisconnectsOf(order, outs)
  }

  // ---- Upload reads ----

  function Waiters(rs: Reads): map<BlockRange, nat> {
    map r | r in rs :: |rs[r].peers|
  }

  /** The reads nobody waits for once `addr` is gone. */
  function Orphaned(rs: Reads, addr: SocketAddr): set<BlockRange> {
    set r | r in rs && rs[r].peers - {addr} == {}
  }

  function WithoutWaiter(rs: Reads, addr: SocketAddr): Reads {
    map r | r in rs && rs[r].peers - {addr} != {} :: PendingRead(rs[r].readId, rs[r].peers - {addr})
  }

  function ValidUpload(m: Metainfo, states: seq<PieceState>, range: BlockRange): bool
    requires |states| == |m.pieces|
  {
    && range.pieceIndex < |states| && states[range.pieceIndex].Complete?
    && 0 < range.len <= BLOCK_SIZE && range.pieceOffset + range.len <= PieceLen(m, range.pieceIndex)
  }

  datatype RequestFate = Ignored | Shared | Fresh

  ghost function FateOf(c: Config, s: State, range: BlockRange): RequestFate
    requires Ready(c, s)
  {
    if !s.status.Uploads() || !ValidUpload(c.metainfo, s.pieces, range) then Ignored
    else if Total(Waiters(s.pending)) >= MAX_PENDING_UPLOADS then Ignored
    else if range in s.pending then Shared else Fresh
  }

  ghost function AfterRequest(c: Config, s: State, addr: SocketAddr, range: BlockRange): State
    requires Ready(c, s)
  {
    match FateOf(c, s, range)
    case Ignored => s
    case Shared =>
      s.(pending := s.pending[range := PendingRead(s.pending[range].readId, s.pending[range].peers + {addr})])
    case Fresh => s.(pending := s.pending[range := PendingRead(s.nextId, {addr})], nextId := s.nextId + 1)
  }

  ghost function RequestReply(c: Config, s: State, range: BlockRange): seq<Output>
    requires Ready(c, s)
  {
    if FateOf(c, s, range).Fresh? then [ReadForUpload(s.nextId, range)] else []
  }

  function AfterCancel(s: State, addr: SocketAddr, range: BlockRange): State {
    if range !in s.pending then s
    else if s.pending[range].peers - {addr} == {} then s.(pending := s.pending - {range})
    else s.(pending := s.pending[range := PendingRead(s.pending[range].readId, s.pending[range].peers - {addr})])
  }

  function CancelReply(s: State, addr: SocketAddr, range: BlockRange): seq<Output> {
    if range in s.pending && s.pending[range].peers - {addr} == {} then [CancelUploadRead(s.pending[range].readId)]
    else []
  }

  /** What serving `n` peers counts for. */
  function BytesTo(n: nat, len: nat): nat { n * len }

  ghost predicate OnReadCompleted(s: State, id: nat, range: BlockRange, data: bytes, outs: seq<Output>, s': State) {
    if range !in s.pending || s.pending[range].readId != id then outs == [] && s' == s
    else if !s.status.Uploads() then outs == [] && s' == s.(pending := s.pending - {range})
    else
      var to := s.pending[range].peers * s.reg.peers.Keys;
      Sends(to, M.Piece(range, data),
            outs) && s' == s.(pending := s.pending - {range}, uploaded := s.uploaded + BytesTo(|to|, |data|))
  }

  // ---- Connections ----

  function PreferredDirection(clientId: PeerId, id: PeerId): ConnectionDirection {
    if Less(id, clientId) then Outbound else Inbound
  }

  function AfterGone(s: State, addr: SocketAddr): State {
    s.(reg := AfterDisconnected(s.reg, addr), inFlight := Release(s.inFlight, addr),
       pending := WithoutWaiter(s.pending, addr))
  }

  ghost predicate OnDisconnected(s: State, addr: SocketAddr, outs: seq<Output>, s': State) {
    s' == AfterGone(s, addr) && Cancels(s.pending, Orphaned(s.pending, addr), outs)
  }

  function Interest(reg: Registry, addr: SocketAddr): seq<Output> {
    if addr in reg.peers then [SendToPeer(addr, M.Interested)] else []
  }

  function Discovered(s: State, addrs: seq<SocketAddr>): seq<Output> {
    if AllComplete(s.pieces) then [] else Unknown(s.reg, addrs)
  }

  function Unknown(reg: Registry, addrs: seq<SocketAddr>): seq<Output> {
    if addrs == [] then []
    else
      var a := addrs[|addrs| - 1];
      Unknown(reg, addrs[..|addrs| - 1]) + if a in reg.peers then [] else [ConnectPeer(a)]
  }

  /** Exactly one of `HaveAll`, `HaveNone` (BEP 6) and `Bitfield` tells a new peer what we have. */
  ghost predicate Announces(pieces: seq<PieceState>, fast: bool, message: M.Message) {
    if fast && AllComplete(pieces) then message == M.HaveAll
    else if fast && NoneComplete(pieces) then message == M.HaveNone
    else
      && message.Bitfield? && |message.bits| == Bitfields.BytesFor(|pieces|)
      && Bitfields.SetBits(message.bits) == CompleteSet(pieces)
  }

  function AfterAccept(s: State, addr: SocketAddr, direction: ConnectionDirection, id: PeerId,
                       ext: PeerExtensions): State {
    s.(inFlight := Release(s.inFlight, addr), reg := AfterConnected(s.reg, addr, id, direction, ext))
  }

  ghost predicate AcceptOutputs(pieces: seq<PieceState>, addr: SocketAddr, ext: PeerExtensions, outs: seq<Output>) {
    && |outs| == 2 && outs[0].SendToPeer? && outs[0].addr == addr && Announces(pieces, ext.fast, outs[0].message)
    && outs[1] == SendToPeer(addr, M.Interested)
  }

  datatype Verdict = Accept | Reject | Replace(previous: SocketAddr)

  /** The greater peer id keeps its outbound connection, the smaller one its inbound connection. */
  function Judge(clientId: PeerId, reg: Registry, direction: ConnectionDirection, id: PeerId): Verdict {
    match ConnectionFor(reg, id)
    case None => Accept
    case Some((oldAddr, oldDirection)) =>
      if direction == oldDirection || direction != PreferredDirection(clientId, id) then Reject else Replace(oldAddr)
  }

  ghost predicate OnConnected(c: Config, s: State, addr: SocketAddr, direction: ConnectionDirection, id: PeerId,
                              ext: PeerExtensions, outs: seq<Output>, s': State)
  {
    match Judge(c.clientId, s.reg, direction, id)
    case Reject => outs == [DisconnectPeer(addr)] && s' == s
    case Accept => AcceptOutputs(s.pieces, addr, ext, outs) && s' == AfterAccept(s, addr, direction, id, ext)
    case Replace(prev) =>
      && |outs| >= 3 && Cancels(s.pending, Orphaned(s.pending, prev), outs[..|outs| - 3])
      && outs[|outs| - 3] == DisconnectPeer(prev) && AcceptOutputs(s.pieces, addr, ext, outs[|outs| - 2..])
      && s' == AfterAccept(AfterGone(s, prev), addr, direction, id, ext)
  }

  // ---- Messages ----

  /** What the piece manager makes of a block, if it was asked of this peer at all. */
  function Receipt(c: Config, s: State, addr: SocketAddr, range: BlockRange, data: bytes)
      : (Result<Option<CompletedPiece>, PieceManagers.Error>, seq<PieceState>)
    requires Ready(c, s)
  {
    if IsHolder(s.inFlight, range, addr) then ReceiveInto(c.sha, c.metainfo, s.pieces, range, data)
    else (Ok(None), s.pieces)
  }

  function AfterPiece(c: Config, s: State, addr: SocketAddr, range: BlockRange, data: bytes): State
    requires Ready(c, s)
  {
    if !IsHolder(s.inFlight, range, addr) then s
    else
      var (r, pieces) := Receipt(c, s, addr, range, data);
      s.(inFlight := UnassignFrom(s.inFlight, range, addr), pieces := pieces,
         downloaded := if r.Ok? then s.downloaded + |data| else s.downloaded)
  }

  /** A completed piece is announced and written; the last one ends the download. */
  ghost predicate CompletionOutputs(done: CompletedPiece, last: bool, seeders: set<SocketAddr>, outs: seq<Output>) {
    && |outs| >= 2
    && outs[0] == Broadcast(M.Have(done.range.pieceIndex)) && outs[1] == WritePiece(done.range, done.data)
    && if last then |outs| >= 3 && outs[2] == Completed && Disconnects(seeders, outs[3..]) else |outs| == 2
  }

  ghost predicate PieceOutputs(c: Config, s: State, addr: SocketAddr, range: BlockRange, data: bytes, outs: seq<Output>)
    requires Ready(c, s)
  {
    var (r, pieces) := Receipt(c, s, addr, range, data);
    if r.Ok? && r.value.Some? then CompletionOutputs(r.value.value, AllComplete(pieces), s.reg.seeders, outs)
    else outs == []
  }

  ghost function MetadataReply(c: Config, s: State, addr: SocketAddr, piece: nat): seq<Output> {
    match PeerExtensionId(s.reg, addr, UT_METADATA)
    case None => []
    case Some(extId) =>
      var reply := X.MetadataData(piece, |c.metainfo.infoBytes|, InfoBytesBlock(c.metainfo, piece));
      [SendToPeer(addr, M.Extension(extId, X.EncodeUtMetadata(reply)))]
  }

  ghost predicate ExtensionOutputs(c: Config, s: State, addr: SocketAddr, extId: byte, payload: bytes,
                                   outs: seq<Output>) {
    if extId == M.UT_METADATA_EXT_ID then
      match X.DecodeUtMetadata(payload)
      case Ok(MetadataRequest(piece)) => outs == MetadataReply(c, s, addr, piece)
      case _ => outs == []
    else if extId == M.UT_PEX_EXT_ID then
      match X.DecodePex(payload)
      case Ok(addrs) => exists order :: Listing(order, addrs) && outs == Discovered(s, order)
      case Err(_) => outs == []
    else outs == []
  }

  /** The state after the handler of an accepted message, before any replanning. */
  ghost function AfterMessage(c: Config, s: State, addr: SocketAddr, msg: M.Message): State
    requires Ready(c, s)
  {
    match msg
    case Choke => s.(inFlight := Release(s.inFlight, addr))
    case RejectRequest(range) => s.(inFlight := UnassignFrom(s.inFlight, range, addr))
    case Cancel(range) => AfterCancel(s, addr, range)
    case Request(range) => AfterRequest(c, s, addr, range)
    case Piece(range, data) => AfterPiece(c, s, addr, range, data)
    case _ => s
  }

  ghost predicate MessageOutputs(c: Config, s: State, addr: SocketAddr, msg: M.Message, outs: seq<Output>)
    requires Ready(c, s)
  {
    match msg
    case Bitfield(_) => outs == Interest(s.reg, addr)
    case Have(_) => outs == Interest(s.reg, addr)
    case HaveAll => outs == Interest(s.reg, addr)
    case SuggestPiece(_) => outs == Interest(s.reg, addr)
    case AllowedFast(_) => outs == Interest(s.reg, addr)
    case Interested => outs == [SendToPeer(addr, M.Unchoke)]
    case Request(range) => outs == RequestReply(c, s, range)
    case Cancel(range) => outs == CancelReply(s, addr, range)
    case Piece(range, data) => PieceOutputs(c, s, addr, range, data, outs)
    case Extension(extId, payload) => ExtensionOutputs(c, s, addr, extId, payload, outs)
    case _ => outs == []
  }

  // ---- Planning ----

  function SlotsTable(s: State): map<SocketAddr, nat> {
    map addr | addr in Unchoked(s.reg) :: FreeSlots(s.inFlight, addr)
  }

  ghost function Budget(s: State): nat { Total(SlotsTable(s)) }

  function SceneOf(c: Config, s: State): Scene {
    Scene(c.metainfo, s.reg, s.pieces, |Unchoked(s.reg)|)
  }

  ghost predicate PlansWith(c: Config, s: State, rs: seq<BlockRequest>, outs: seq<Output>, s': State) {
    && IsPlan(SceneOf(c, s), s.inFlight, Budget(s), rs)
    && outs == RequestOutputs(rs) && s' == s.(inFlight := AssignAll(s.inFlight, rs))
  }

  ghost predicate Planned(c: Config, s: State, outs: seq<Output>, s': State) {
    if !s.status.Downloads() then outs == [] && s' == s
    else exists rs :: PlansWith(c, s, rs, outs, s')
  }

  ghost predicate Handled(c: Config, s: State, addr: SocketAddr, msg: M.Message, k: nat, outs: seq<Output>, s': State)
    requires Ready(c, s)
  {
    && k <= |outs| && MessageOutputs(c, s, addr, msg, outs[..k])
    && if msg.AffectsScheduling() then Planned(c, AfterMessage(c, s, addr, msg), outs[k..], s')
       else k == |outs| && s' == AfterMessage(c, s, addr, msg)
  }

  ghost predicate OnMessage(c: Config, s: State, addr: SocketAddr, msg: M.Message, outs: seq<Output>, s': State)
    requires Ready(c, s)
  {
    match ApplyMessage(s.reg, |c.metainfo.pieces|, addr, msg)
    case Err(UnknownPeer) => outs == [] && s' == s
    case Err(ProtocolViolation) => outs == [DisconnectPeer(addr)] && s' == s
    case Ok(reg) => exists k :: Handled(c, s.(reg := reg), addr, msg, k, outs, s')
  }

  // ---- Local data, commands and ticks ----

  function AfterLocal(c: Config, s: State, piece: nat, data: bytes): State
    requires Ready(c, s)
  {
    s.(pieces := FillLocal(c.sha, c.metainfo, s.pieces, UnreceivedBlocks(c.metainfo, s.pieces, piece), data))
  }

  ghost predicate OnSetStatus(s: State, status: SwarmStatus, outs: seq<Output>, s': State) {
    if status.Uploads() then outs == [] && s' == s.(status := status)
    else Cancels(s.pending, s.pending.Keys, outs) && s' == s.(status := status, pending := map[])
  }

  /** The peers the exchange is sent to: those that advertised `ut_pex`. */
  function PexPeers(reg: Registry): set<SocketAddr> {
    set a | a in reg.seeders + reg.leechers && PeerExtensionId(reg, a, UT_PEX).Some?
  }

  ghost predicate PexOf(reg: Registry, order: seq<SocketAddr>, payload: bytes, outs: seq<Output>) {
    && |outs| == |order|
    && forall i :: 0 <= i < |order| ==>
      && PeerExtensionId(reg, order[i], UT_PEX).Some?
      && outs[i] == SendToPeer(order[i], M.Extension(PeerExtensionId(reg, order[i], UT_PEX).value, payload))
  }

  ghost predicate OnPexTick(s: State, outs: seq<Output>) {
    exists order, payload ::
      && Listing(order, PexPeers(s.reg)) && X.IsPexEncoding(payload, s.reg.seeders + s.reg.leechers)
      && PexOf(s.reg, order, payload, outs)
  }

  // ---- One step ----

  ghost predicate Next(c: Config, s: State, input: Input, outs: seq<Output>, s': State)
    requires Ready(c, s)
  {
    match input
    case PeersDiscovered(addrs) => outs == Discovered(s, addrs) && s' == s
    case PeerConnected(id, direction, addr, ext) => OnConnected(c, s, addr, direction, id, ext, outs, s')
    case PeerDisconnected(addr) => OnDisconnected(s, addr, outs, s')
    case MessageReceived(addr, msg) => OnMessage(c, s, addr, msg, outs, s')
    case LocalPiece(piece, data) => outs == [] && s' == AfterLocal(c, s, piece, data)
    case UploadReadCompleted(id, range, data) => OnReadCompleted(s, id, range, data, outs, s')
    case SetStatus(status) => OnSetStatus(s, status, outs, s')
    case OnTick(tick) =>
      match tick
      case BlockTick => Planned(c, s, outs, s')
      case PexTick => OnPexTick(s, outs) && s' == s
  }
}
