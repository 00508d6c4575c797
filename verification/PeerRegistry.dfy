/** Registered peers, their identities and what they are known to have (swarm/peer_registry.rs). */
module Registries {
  import opened Wrappers
  import opened Bytes
  import opened Peers
  import opened Messages
  import Bitfields

  const USIZE_MAX: nat := U64_LIMIT - 1

  datatype RejectReason = UnknownPeer | ProtocolViolation

  datatype PeerState = PeerState(
    id: PeerId, peerChoking: bool, peerInterested: bool,
    allowedFast: set<nat>, suggested: set<nat>, fast: bool,
    extensions: Option<ExtHandshake>, bytesUploaded: nat, bytesDownloaded: nat)

  type Availability = map<nat, set<SocketAddr>>

  datatype Registry = Registry(
    peers: map<SocketAddr, PeerState>,
    byId: map<PeerId, (SocketAddr, ConnectionDirection)>,
    byPiece: Availability,
    seeders: set<SocketAddr>, leechers: set<SocketAddr>)

  // ---- One peer ----

  function NewPeer(id: PeerId, extensions: PeerExtensions): PeerState {
    PeerState(id, true, false, {}, {}, extensions.fast, None, 0, 0)
  }

  function ApplyToPeer(p: PeerState, msg: Message): PeerState {
    match msg
    case Choke => p.(peerChoking := true)
    case Unchoke => p.(peerChoking := false)
    case Interested => p.(peerInterested := true)
    case NotInterested => p.(peerInterested := false)
    case ExtensionHandshake(hs) => p.(extensions := Some(hs))
    case AllowedFast(piece) => p.(allowedFast := p.allowedFast + {piece})
    case SuggestPiece(piece) => p.(suggested := p.suggested + {piece})
    case Piece(_, data) => p.(bytesDownloaded := p.bytesDownloaded + |data|)
    case Request(range) => p.(bytesUploaded := p.bytesUploaded + range.len)
    case _ => p
  }

  predicate PeerCanServe(p: PeerState, piece: nat) {
    !p.peerChoking || piece in p.allowedFast
  }

  // ---- The piece index ----

  predicate Has(byPiece: Availability, piece: nat, addr: SocketAddr) {
    piece in byPiece && addr in byPiece[piece]
  }

  /** `record` for every piece of a set. */
  function RecordAllOf(byPiece: Availability, pieces: set<nat>, addr: SocketAddr): Availability {
    map p | p in byPiece.Keys + pieces ::
      (if p in byPiece then byPiece[p] else {}) + (if p in pieces then {addr} else {})
  }

  function WithoutPeer(byPiece: Availability, addr: SocketAddr): Availability {
    map p | p in byPiece && byPiece[p] - {addr} != {} :: byPiece[p] - {addr}
  }

  predicate SeederIn(byPiece: Availability, total: nat, addr: SocketAddr) {
    forall p: nat :: p < total ==> Has(byPiece, p, addr)
  }

  function Rarity(byPiece: Availability, piece: nat): nat {
    if piece in byPiece then |byPiece[piece]| else USIZE_MAX
  }

  /** The pieces `0..total`. */
  function Upto(total: nat): (s: set<nat>)
    ensures forall p: nat :: p in s <==> p < total
  {
    if total == 0 then {} else Upto(total - 1) + {total - 1}
  }

  function IndexAfter(byPiece: Availability, total: nat, addr: SocketAddr, msg: Message): Availability {
    match msg
    case Bitfield(bits) => RecordAllOf(WithoutPeer(byPiece, addr), Bitfields.SetBits(bits), addr)
    case Have(piece) => RecordAllOf(byPiece, {piece}, addr)
    case HaveAll => RecordAllOf(byPiece, Upto(total), addr)
    case HaveNone => WithoutPeer(byPiece, addr)
    case _ => byPiece
  }

  // ---- The registry ----

  function AfterConnected(r: Registry, addr: SocketAddr, id: PeerId, direction: ConnectionDirection,
                          ext: PeerExtensions): Registry {
    r.(peers := r.peers[addr := NewPeer(id, ext)], byId := r.byId[id := (addr, direction)])
  }

  function AfterDisconnected(r: Registry, addr: SocketAddr): Registry {
    var byId :=
      if addr in r.peers && r.peers[addr].id in r.byId && r.byId[r.peers[addr].id].0 == addr then
        r.byId - {r.peers[addr].id}
      else r.byId;
    Registry(r.peers - {addr}, byId, WithoutPeer(r.byPiece, addr), r.seeders - {addr}, r.leechers - {addr})
  }

  /** `apply`: a message from an unknown peer or against BEP 6 changes nothing. */
  function ApplyMessage(r: Registry, total: nat, addr: SocketAddr, msg: Message): Result<Registry, RejectReason> {
    if addr !in r.peers then Err(UnknownPeer)
    else if msg.NeedsFast() && !r.peers[addr].fast then Err(ProtocolViolation)
    else
      var byPiece := IndexAfter(r.byPiece, total, addr, msg);
      var seeds := SeederIn(byPiece, total, addr);
      Ok(Registry(r.peers[addr := ApplyToPeer(r.peers[addr], msg)], r.byId, byPiece,
                  if seeds then r.seeders + {addr} else r.seeders - {addr},
                  if seeds then r.leechers - {addr} else r.leechers + {addr}))
  }

  function ConnectionFor(r: Registry, id: PeerId): Option<(SocketAddr, ConnectionDirection)> {
    if id in r.byId then Some(r.byId[id]) else None
  }

  predicate CanServe(r: Registry, addr: SocketAddr, piece: nat) {
    addr in r.peers && PeerCanServe(r.peers[addr], piece)
  }

  function Unchoked(r: Registry): set<SocketAddr> {
    set addr | addr in r.peers && !r.peers[addr].peerChoking
  }

  predicate IsSuggested(r: Registry, piece: nat) {
    exists addr :: addr in r.peers && piece in r.peers[addr].suggested
  }

  function PeerExtensionId(r: Registry, addr: SocketAddr, name: bytes): Option<byte> {
    if addr in r.peers && r.peers[addr].extensions.Some? && name in r.peers[addr].extensions.value.extensions then
      Some(r.peers[addr].extensions.value.extensions[name])
    else None
  }

  const EMPTY := Registry(map[], map[], map[], {}, {})

  // ---- Invariants ----

  /** Each registered peer is the active connection of its identity. */
  ghost predicate Indexed(r: Registry) {
    forall a :: a in r.peers ==> r.peers[a].id in r.byId && r.byId[r.peers[a].id].0 == a
  }

  /** No two registered addresses share a peer id. */
  ghost predicate UniqueIds(r: Registry) {
    forall a, b :: a in r.peers && b in r.peers && a != b ==> r.peers[a].id != r.peers[b].id
  }

  ghost predicate IndexRegistered(r: Registry) {
    forall p :: p in r.byPiece ==> r.byPiece[p] != {} && r.byPiece[p] <= r.peers.Keys
  }

  ghost predicate Classified(r: Registry, total: nat) {
    && r.seeders !! r.leechers && r.seeders + r.leechers <= r.peers.Keys
    && (forall a :: a in r.seeders ==> SeederIn(r.byPiece, total, a))
    && (forall a :: a in r.leechers ==> !SeederIn(r.byPiece, total, a))
  }

  ghost predicate RegistryOk(r: Registry, total: nat) {
    Indexed(r) && IndexRegistered(r) && Classified(r, total)
  }

  lemma IndexedUnique(r: Registry)
    requires Indexed(r)
    ensures UniqueIds(r)
  {
  }

  lemma EmptyOk(total: nat)
    ensures RegistryOk(EMPTY, total)
  {
  }

  /** Registering is allowed once the previous connection of that identity, if any, is gone. */
  lemma ConnectedKeeps(r: Registry, total: nat, addr: SocketAddr, id: PeerId, direction: ConnectionDirection,
                       ext: PeerExtensions)
    requires RegistryOk(r, total) && forall a :: a in r.peers && a != addr ==> r.peers[a].id != id
    ensures RegistryOk(AfterConnected(r, addr, id, direction, ext), total)
  {
  }

  lemma RemovalHas(byPiece: Availability, addr: SocketAddr)
    ensures forall p, a :: Has(WithoutPeer(byPiece, addr), p, a) <==> Has(byPiece, p, a) && a != addr
  {
    forall p, a ensures Has(WithoutPeer(byPiece, addr), p, a) <==> Has(byPiece, p, a) && a != addr {
      if Has(byPiece, p, a) && a != addr {
        assert a in byPiece[p] - {addr};
      }
    }
  }

  lemma DisconnectedKeeps(r: Registry, total: nat, addr: SocketAddr)
    requires RegistryOk(r, total)
    ensures RegistryOk(AfterDisconnected(r, addr), total)
    ensures addr !in AfterDisconnected(r, addr).peers
  {
    RemovalHas(r.byPiece, addr);
    var r' := AfterDisconnected(r, addr);
    forall a | a in r'.seeders + r'.leechers ensures SeederIn(r'.byPiece, total, a) <==> SeederIn(r.byPiece, total, a) {
      assert forall p: nat :: Has(r'.byPiece, p, a) <==> Has(r.byPiece, p, a);
    }
  }

  /** A message changes the index only at the peer that sent it. */
  lemma IndexAfterHas(byPiece: Availability, total: nat, addr: SocketAddr, msg: Message)
    ensures forall p, a :: a != addr ==> (Has(IndexAfter(byPiece, total, addr, msg), p, a) <==> Has(byPiece, p, a))
  {
    RemovalHas(byPiece, addr);
  }

  lemma ApplyKeeps(r: Registry, total: nat, addr: SocketAddr, msg: Message)
    requires RegistryOk(r, total) && ApplyMessage(r, total, addr, msg).Ok?
    ensures RegistryOk(ApplyMessage(r, total, addr, msg).value, total)
    ensures ApplyMessage(r, total, addr, msg).value.peers.Keys == r.peers.Keys
  {
    var r' := ApplyMessage(r, total, addr, msg).value;
    IndexAfterHas(r.byPiece, total, addr, msg);
    assert r'.peers[addr].id == r.peers[addr].id;
    assert r'.peers.Keys == r.peers.Keys;
    forall a | a in r'.seeders + r'.leechers && a != addr
      ensures SeederIn(r'.byPiece, total, a) <==> SeederIn(r.byPiece, total, a) {
      assert forall p: nat :: Has(r'.byPiece, p, a) <==> Has(r.byPiece, p, a);
    }
    IndexPeers(r, total, addr, msg);
  }

  lemma IndexPeers(r: Registry, total: nat, addr: SocketAddr, msg: Message)
    requires IndexRegistered(r) && addr in r.peers
    ensures var byPiece := IndexAfter(r.byPiece, total, addr, msg);
      forall p :: p in byPiece ==> byPiece[p] != {} && byPiece[p] <= r.peers.Keys
  {
  }

  // ---- The index is the transpose of what each peer announced ----

  datatype Event =
    | Connected(addr: SocketAddr, id: PeerId, direction: ConnectionDirection, ext: PeerExtensions)
    | Disconnected(addr: SocketAddr)
    | MessageFrom(addr: SocketAddr, msg: Message)

  function Step(r: Registry, total: nat, e: Event): Registry {
    match e
    case Connected(addr, id, direction, ext) => AfterConnected(r, addr, id, direction, ext)
    case Disconnected(addr) => AfterDisconnected(r, addr)
    case MessageFrom(addr, msg) =>
      match ApplyMessage(r, total, addr, msg)
      case Ok(r') => r'
      case Err(_) => r
  }

  function RunOf(total: nat, es: seq<Event>): Registry {
    if es == [] then EMPTY else Step(RunOf(total, es[..|es| - 1]), total, es[|es| - 1])
  }

  /** What one peer claims to have: `Bitfield` replaces, `Have` adds, `HaveAll` fills, `HaveNone` empties. */
  function ClaimAfter(claim: set<nat>, total: nat, msg: Message): set<nat> {
    match msg
    case Bitfield(bits) => Bitfields.SetBits(bits)
    case Have(piece) => claim + {piece}
    case HaveAll => claim + Upto(total)
    case HaveNone => {}
    case _ => claim
  }

  type Claims = map<SocketAddr, set<nat>>

  function ClaimOf(claims: Claims, addr: SocketAddr): set<nat> {
    if addr in claims then claims[addr] else {}
  }

  /**
   * What every address claims, replayed from the accepted messages alone. As in the source, a connection that
   * takes over an address inherits what the address claimed before.
   */
  function ReplayClaims(total: nat, es: seq<Event>): Claims {
    if es == [] then map[]
    else
      var before := ReplayClaims(total, es[..|es| - 1]);
      match es[|es| - 1]
      case Connected(_, _, _, _) => before
      case Disconnected(addr) => before - {addr}
      case MessageFrom(addr, msg) =>
        if ApplyMessage(RunOf(total, es[..|es| - 1]), total, addr, msg).Ok? then
          before[addr := ClaimAfter(ClaimOf(before, addr), total, msg)]
        else before
  }

  ghost predicate Transposes(byPiece: Availability, claims: Claims) {
    && (forall p, a :: Has(byPiece, p, a) <==> p in ClaimOf(claims, a))
    && (forall p :: p in byPiece ==> byPiece[p] != {})
  }

  lemma MessageTransposes(byPiece: Availability, claims: Claims, total: nat, addr: SocketAddr, msg: Message)
    requires Transposes(byPiece, claims)
    ensures Transposes(IndexAfter(byPiece, total, addr, msg),
                       claims[addr := ClaimAfter(ClaimOf(claims, addr), total, msg)])
  {
    RemovalHas(byPiece, addr);
    var after := claims[addr := ClaimAfter(ClaimOf(claims, addr), total, msg)];
    forall p, a ensures Has(IndexAfter(byPiece, total, addr, msg), p, a) <==> p in ClaimOf(after, a) {
      assert Has(byPiece, p, a) <==> p in ClaimOf(claims, a);
    }
  }

  lemma RemovalTransposes(byPiece: Availability, claims: Claims, addr: SocketAddr)
    requires Transposes(byPiece, claims)
    ensures Transposes(WithoutPeer(byPiece, addr), claims - {addr})
  {
    RemovalHas(byPiece, addr);
  }

  /** After any sequence of events the index is the exact transpose of the replayed claims. */
  lemma {:induction false} IndexIsTranspose(total: nat, es: seq<Event>)
    ensures Transposes(RunOf(total, es).byPiece, ReplayClaims(total, es))
  {
    if es != [] {
      var init := es[..|es| - 1];
      IndexIsTranspose(total, init);
      match es[|es| - 1]
      case Connected(_, _, _, _) =>
      case Disconnected(addr) => RemovalTransposes(RunOf(total, init).byPiece, ReplayClaims(total, init), addr);
      case MessageFrom(addr, msg) =>
        MessageTransposes(RunOf(total, init).byPiece, ReplayClaims(total, init), total, addr, msg);
    }
  }

  // ---- Addresses that change hands ----

  /** The claims of the peers now connected: a new connection starts without any. */
  function FreshAfter(claims: Claims, r: Registry, total: nat, e: Event): Claims {
    match e
    case Connected(addr, _, _, _) => claims - {addr}
    case Disconnected(addr) => claims - {addr}
    case MessageFrom(addr, msg) =>
      if ApplyMessage(r, total, addr, msg).Ok? then claims[addr := ClaimAfter(ClaimOf(claims, addr), total, msg)]
      else claims
  }

  function FreshClaims(total: nat, es: seq<Event>): Claims {
    if es == [] then map[]
    else FreshAfter(FreshClaims(total, es[..|es| - 1]), RunOf(total, es[..|es| - 1]), total, es[|es| - 1])
  }

  /** A connection at an address for which the index still has something. */
  ghost predicate TakesOver(r: Registry, e: Event) {
    e.Connected? && exists p :: Has(r.byPiece, p, e.addr)
  }

  /** An event carries the transpose on exactly if it takes over no address. */
  lemma FreshStep(claims: Claims, r: Registry, total: nat, e: Event)
    requires Transposes(r.byPiece, claims)
    ensures Transposes(Step(r, total, e).byPiece, FreshAfter(claims, r, total, e)) <==> !TakesOver(r, e)
  {
    match e
    case Connected(addr, _, _, _) => ConnectionTransposes(r.byPiece, claims, addr);
    case Disconnected(addr) => RemovalTransposes(r.byPiece, claims, addr);
    case MessageFrom(addr, msg) => MessageTransposes(r.byPiece, claims, total, addr, msg);
  }

  lemma ConnectionTransposes(byPiece: Availability, claims: Claims, addr: SocketAddr)
    requires Transposes(byPiece, claims)
    ensures Transposes(byPiece, claims - {addr}) <==> forall p :: !Has(byPiece, p, addr)
  {
    if Transposes(byPiece, claims - {addr}) {
      forall p ensures !Has(byPiece, p, addr) {
        assert p !in ClaimOf(claims - {addr}, addr);
      }
    }
    if forall p :: !Has(byPiece, p, addr) {
      forall p, a ensures Has(byPiece, p, a) <==> p in ClaimOf(claims - {addr}, a) {
      }
    }
  }

  lemma OneMore(total: nat, es: seq<Event>, e: Event)
    ensures RunOf(total, es + [e]) == Step(RunOf(total, es), total, e)
    ensures FreshClaims(total, es + [e]) == FreshAfter(FreshClaims(total, es), RunOf(total, es), total, e)
  {
    assert (es + [e])[..|es|] == es;
  }

  /**
   * It does happen: a peer that has sent nothing is counted as a holder and as a seeder, because it connected
   * from an address whose previous peer announced the piece and was not reported as disconnected.
   */
  lemma NewPeerInheritsPieces(a: SocketAddr, id1: PeerId, id2: PeerId, direction: ConnectionDirection,
                              ext: PeerExtensions)
    ensures var es := [Connected(a, id1, direction, ext), MessageFrom(a, Have(0)), Connected(a, id2, direction, ext)];
      var r := RunOf(1, es);
      && r.peers[a] == NewPeer(id2, ext) && ClaimOf(FreshClaims(1, es), a) == {}
      && a in r.seeders && Rarity(r.byPiece, 0) == 1
  {
    var e1, e2, e3 := Connected(a, id1, direction, ext), MessageFrom(a, Have(0)), Connected(a, id2, direction, ext);
    OneMore(1, [], e1);
    OneMore(1, [e1], e2);
    OneMore(1, [e1, e2], e3);
    assert [] + [e1] == [e1] && [e1] + [e2] == [e1, e2] && [e1, e2] + [e3] == [e1, e2, e3];
    var r1, r2 := RunOf(1, [e1]), RunOf(1, [e1, e2]);
    hide FreshClaims, RunOf, Rarity, SeederIn, ApplyMessage;
    assert RunOf(1, []) == EMPTY by { NothingYet(); }
    assert a in r1.peers && r1.byPiece == map[];
    FirstHave(r1, a);
    assert Rarity(r2.byPiece, 0) == 1 && a in r2.seeders;
  }

  lemma FirstHave(r: Registry, a: SocketAddr)
    requires a in r.peers && r.byPiece == map[]
    ensures var r' := Step(r, 1, MessageFrom(a, Have(0)));
      a in r'.peers && Rarity(r'.byPiece, 0) == 1 && a in r'.seeders
  {
    assert IndexAfter(r.byPiece, 1, a, Have(0))[0] == {a};
  }

  lemma NothingYet()
    ensures RunOf(1, []) == EMPTY
  {
  }

  /** The peers that claim a piece. */
  function Claimants(claims: Claims, piece: nat): set<SocketAddr> {
    set a | a in claims && piece in claims[a]
  }

  lemma RarityCounts(byPiece: Availability, claims: Claims, piece: nat)
    requires Transposes(byPiece, claims)
    ensures var holders := Claimants(claims, piece);
      Rarity(byPiece, piece) == if holders == {} then USIZE_MAX else |holders|
  {
    forall a ensures a in Claimants(claims, piece) <==> Has(byPiece, piece, a) {
      assert Has(byPiece, piece, a) <==> piece in ClaimOf(claims, a);
    }
    if piece in byPiece {
      assert Claimants(claims, piece) == byPiece[piece];
    }
  }

  /** `rarity` is the number of addresses that claim the piece, or the maximum when none does. */
  lemma RarityIsClaimantCount(total: nat, es: seq<Event>, piece: nat)
    ensures var holders := Claimants(ReplayClaims(total, es), piece);
      Rarity(RunOf(total, es).byPiece, piece) == if holders == {} then USIZE_MAX else |holders|
  {
    IndexIsTranspose(total, es);
    RarityCounts(RunOf(total, es).byPiece, ReplayClaims(total, es), piece);
  }

  lemma SeederClaims(byPiece: Availability, claims: Claims, total: nat, addr: SocketAddr)
    requires Transposes(byPiece, claims)
    ensures SeederIn(byPiece, total, addr) <==> Upto(total) <= ClaimOf(claims, addr)
  {
    forall p: nat ensures Has(byPiece, p, addr) <==> p in ClaimOf(claims, addr) {
    }
    if Upto(total) <= ClaimOf(claims, addr) {
      forall p: nat | p < total ensures Has(byPiece, p, addr) {
        assert p in Upto(total);
      }
    }
  }

  /** An address counts as a seeder exactly when its claims cover every piece. */
  lemma SeederIffClaimsAll(total: nat, es: seq<Event>, addr: SocketAddr)
    ensures SeederIn(RunOf(total, es).byPiece, total, addr) <==> Upto(total) <= ClaimOf(ReplayClaims(total, es), addr)
  {
    IndexIsTranspose(total, es);
    SeederClaims(RunOf(total, es).byPiece, ReplayClaims(total, es), total, addr);
  }

  // ---- The objects ----

  class PieceAvailability {
    var byPiece: Availability
    const totalPieces: nat

    constructor (totalPieces: nat)
      ensures byPiece == map[] && this.totalPieces == totalPieces
    {
      byPiece := map[];
      this.totalPieces := totalPieces;
    }

    method Record(piece: nat, addr: SocketAddr)
      modifies this
      ensures byPiece == RecordAllOf(old(byPiece), {piece}, addr)
    {
      byPiece := byPiece[piece := (if piece in byPiece then byPiece[piece] else {}) + {addr}];
      SameIndex(byPiece, RecordAllOf(old(byPiece), {piece}, addr));
    }

    method RecordAll(addr: SocketAddr)
      modifies this
      ensures byPiece == RecordAllOf(old(byPiece), Upto(totalPieces), addr)
    {
      RecordNothing(byPiece, addr);
      for piece := 0 to totalPieces
        invariant byPiece == RecordAllOf(old(byPiece), Upto(piece), addr)
      {
        Record(piece, addr);
        RecordMore(old(byPiece), Upto(piece), piece, addr);
      }
    }

    /** Nobody else loses a piece, and a piece that nobody is left for leaves the index. */
    method RemovePeer(addr: SocketAddr)
      modifies this
      ensures forall p, a :: Has(byPiece, p, a) <==> Has(old(byPiece), p, a) && a != addr
      ensures forall p :: p in byPiece ==> byPiece[p] != {}
      ensures byPiece == WithoutPeer(old(byPiece), addr)
    {
      RemovalHas(byPiece, addr);
      byPiece := map p | p in byPiece && byPiece[p] - {addr} != {} :: byPiece[p] - {addr};
    }
  }

  /** Maps with the same keys and the same sets are equal. */
  lemma SameIndex(m: Availability, n: Availability)
    requires forall p :: p in m <==> p in n
    requires forall p :: p in m ==> m[p] == n[p]
    ensures m == n
  {
  }

  lemma RecordNothing(byPiece: Availability, addr: SocketAddr)
    ensures RecordAllOf(byPiece, {}, addr) == byPiece
  {
    SameIndex(RecordAllOf(byPiece, {}, addr), byPiece);
  }

  lemma RecordMore(byPiece: Availability, pieces: set<nat>, piece: nat, addr: SocketAddr)
    ensures RecordAllOf(RecordAllOf(byPiece, pieces, addr), {piece}, addr)
        == RecordAllOf(byPiece, pieces + {piece}, addr)
  {
    SameIndex(RecordAllOf(RecordAllOf(byPiece, pieces, addr), {piece}, addr),
              RecordAllOf(byPiece, pieces + {piece}, addr));
  }

  class PeerRegistry {
    var peers: map<SocketAddr, PeerState>
    var byId: map<PeerId, (SocketAddr, ConnectionDirection)>
    const availability: PieceAvailability
    var seeders: set<SocketAddr>
    var leechers: set<SocketAddr>

    function View(): Registry
      reads this, availability
    {
      Registry(peers, byId, availability.byPiece, seeders, leechers)
    }

    function Total(): nat { availability.totalPieces }

    constructor (totalPieces: nat)
      ensures fresh(availability) && Total() == totalPieces && View() == EMPTY
    {
      peers, byId, seeders, leechers := map[], map[], {}, {};
      availability := new PieceAvailability(totalPieces);
    }

    /**
     * The address is the active connection of the id and nothing it said before is kept, except what the index
     * recorded. The registry stays well-formed if no other address has the id.
     */
    method Connected(addr: SocketAddr, id: PeerId, direction: ConnectionDirection, ext: PeerExtensions)
      modifies this
      ensures ConnectionFor(View(), id) == Some((addr, direction))
      ensures forall piece :: !CanServe(View(), addr, piece)
      ensures View().byPiece == old(View()).byPiece
      ensures RegistryOk(old(View()), Total()) ==>
        (forall a :: a in old(peers) && a != addr ==> old(peers)[a].id != id) ==> RegistryOk(View(), Total())
      ensures View() == AfterConnected(old(View()), addr, id, direction, ext)
    {
      peers := peers[addr := NewPeer(id, ext)];
      byId := byId[id := (addr, direction)];
    }

    method Disconnected(addr: SocketAddr)
      modifies this, availability
      ensures View() == AfterDisconnected(old(View()), addr)
    {
      seeders := seeders - {addr};
      leechers := leechers - {addr};
      availability.RemovePeer(addr);
      if addr in peers {
        var peer := peers[addr];
        peers := peers - {addr};
        if peer.id in byId && byId[peer.id].0 == addr {
          byId := byId - {peer.id};
        }
      } else {
        assert peers - {addr} == peers;
      }
    }

    /** The loop over the bits of a received bitfield. */
    method RecordBits(bits: bytes, addr: SocketAddr)
      modifies availability
      ensures availability.byPiece == RecordAllOf(old(availability.byPiece), Bitfields.SetBits(bits), addr)
    {
      var iter := new Bitfields.BitfieldIter(bits);
      ghost var done: set<nat> := {};
      ghost var left := Bitfields.BitsFrom(bits, 0);
      RecordNothing(availability.byPiece, addr);
      var next := iter.Next();
      while next.Some?
        invariant iter.Valid() && iter.bitfield == bits && fresh(iter)
        invariant left == (if next.Some? then [next.value] else []) + Bitfields.BitsFrom(bits, iter.Position())
        invariant next == None ==> iter.Position() == 8 * |bits|
        invariant forall p: nat :: p in Bitfields.BitsFrom(bits, 0) <==> p in done || p in left
        invariant availability.byPiece == RecordAllOf(old(availability.byPiece), done, addr)
        decreases |left|
      {
        availability.Record(next.value, addr);
        RecordMore(old(availability.byPiece), done, next.value, addr);
        done, left := done + {next.value}, Bitfields.BitsFrom(bits, iter.Position());
        next := iter.Next();
      }
      Bitfields.BitsFromIsListing(bits, 0);
      assert done == Bitfields.SetBits(bits);
    }

    /** What a message says about the sender's pieces. */
    method UpdateIndex(addr: SocketAddr, msg: Message)
      modifies availability
      ensures availability.byPiece == IndexAfter(old(availability.byPiece), Total(), addr, msg)
    {
      match msg {
        case Bitfield(bits) =>
          availability.RemovePeer(addr);
          RecordBits(bits, addr);
        case Have(piece) => availability.Record(piece, addr);
        case HaveAll => availability.RecordAll(addr);
        case HaveNone => availability.RemovePeer(addr);
        case _ =>
      }
    }

    method Apply(addr: SocketAddr, msg: Message) returns (r: Result<(), RejectReason>)
      modifies this, availability
      ensures match ApplyMessage(old(View()), Total(), addr, msg)
        case Err(e) => r == Err(e) && View() == old(View())
        case Ok(after) => r == Ok(()) && View() == after
    {
      if addr !in peers {
        return Err(UnknownPeer);
      }
      if msg.NeedsFast() && !peers[addr].fast {
        return Err(ProtocolViolation);
      }
      peers := peers[addr := ApplyToPeer(peers[addr], msg)];
      UpdateIndex(addr, msg);
      hide ApplyToPeer, IndexAfter, SeederIn, Has;
      if SeederIn(availability.byPiece, Total(), addr) {
        seeders := seeders + {addr};
        leechers := leechers - {addr};
      } else {
        leechers := leechers + {addr};
        seeders := seeders - {addr};
      }
      return Ok(());
    }
  }
}
