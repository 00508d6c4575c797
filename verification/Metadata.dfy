/** Fetching the info dictionary from peers (BEP 9, client side; metadata.rs). */
module MetadataExchange {
  import opened Wrappers
  import opened Bytes
  import opened Listings
  import opened Peers
  import opened Torrents
  import opened SwarmEvents
  import M = Messages
  import X = ExtensionMessages
  import R = Registries
  import S = SwarmSpec

  datatype ClientInput =
    | Discovered(addrs: seq<SocketAddr>)
    | Gone(addr: SocketAddr)
    | Received(addr: SocketAddr, message: M.Message)

  datatype ClientOutput =
    | Connect(addr: SocketAddr)
    | Send(addr: SocketAddr, message: M.Message)
    | Done(info: bytes)

  type Fragments = seq<Option<bytes>>

  datatype Client = Client(totalSize: Option<nat>, pieces: Fragments, peers: map<SocketAddr, byte>)

  const EMPTY_CLIENT := Client(None, [], map[])

  function PieceCount(size: nat): nat { (size + (METADATA_PIECE_SIZE - 1)) / METADATA_PIECE_SIZE }

  predicate AllThere(pieces: Fragments) {
    forall i :: 0 <= i < |pieces| ==> pieces[i].Some?
  }

  /** The fragments one after the other. */
  function Assembled(pieces: Fragments): bytes {
    if pieces == [] then []
    else Assembled(pieces[..|pieces| - 1]) + match pieces[|pieces| - 1] case Some(data) => data case None => []
  }

  ghost function Ask(addr: SocketAddr, extId: byte, piece: nat): ClientOutput {
    Send(addr, M.Extension(extId, X.EncodeUtMetadata(X.MetadataRequest(piece))))
  }

  /** A request to `addr` for every fragment still missing, in order. */
  ghost function AskMissing(pieces: Fragments, addr: SocketAddr, extId: byte): seq<ClientOutput> {
    if pieces == [] then []
    else
      AskMissing(pieces[..|pieces| - 1], addr, extId) +
      if pieces[|pieces| - 1] == None then [Ask(addr, extId, |pieces| - 1)] else []
  }

  function Emptied(pieces: Fragments): Fragments {
    seq(|pieces|, _ => None)
  }

  ghost function AskEveryone(pieces: Fragments, peers: map<SocketAddr, byte>, order: seq<SocketAddr>): seq<ClientOutput>
    requires forall a :: a in order ==> a in peers
  {
    if order == [] then []
    else
      AskEveryone(pieces, peers, order[..|order| - 1]) +
      AskMissing(pieces, order[|order| - 1], peers[order[|order| - 1]])
  }

  // ---- The transitions ----

  ghost predicate Finalized(sha: bytes -> Hash, hash: Hash, s: Client, outs: seq<ClientOutput>, s': Client) {
    if sha(Assembled(s.pieces)) == hash then outs == [Done(Assembled(s.pieces))] && s' == s
    else
      && s' == s.(pieces := Emptied(s.pieces))
      && exists order :: Listing(order, s.peers.Keys) && outs == AskEveryone(s'.pieces, s.peers, order)
  }

  ghost predicate OnFragment(sha: bytes -> Hash, hash: Hash, s: Client, piece: nat, data: bytes,
                             outs: seq<ClientOutput>, s': Client) {
    if piece >= |s.pieces| || s.pieces[piece].Some? then outs == [] && s' == s
    else
      var filled := s.(pieces := s.pieces[piece := Some(data)]);
      if AllThere(filled.pieces) then Finalized(sha, hash, filled, outs, s') else outs == [] && s' == filled
  }

  ghost predicate OnReject(s: Client, addr: SocketAddr, piece: nat, outs: seq<ClientOutput>, s': Client) {
    && s' == s
    && if s.peers.Keys - {addr} == {} then outs == []
       else exists other :: other in s.peers && other != addr && outs == [Ask(other, s.peers[other], piece)]
  }

  function WithSize(s: Client, size: nat): Client {
    if s.totalSize == None then s.(totalSize := Some(size), pieces := seq(PieceCount(size), _ => None)) else s
  }

  ghost predicate OnHandshake(s: Client, addr: SocketAddr, hs: M.ExtHandshake, outs: seq<ClientOutput>, s': Client) {
    if S.UT_METADATA !in hs.extensions || hs.metadataSize == None then outs == [] && s' == s
    else
      var sized := WithSize(s, hs.metadataSize.value);
      && s' == sized.(peers := sized.peers[addr := hs.extensions[S.UT_METADATA]])
      && outs == AskMissing(s'.pieces, addr, hs.extensions[S.UT_METADATA])
  }

  /** The fragment message a peer we know sent under the id it advertised, if it is one. */
  function Accepted(s: Client, addr: SocketAddr, extId: byte, payload: bytes): Option<X.UtMetadata> {
    if addr in s.peers && s.peers[addr] == extId then
      match X.DecodeUtMetadata(payload)
      case Ok(msg) => Some(msg)
      case Err(_) => None
    else None
  }

  ghost predicate OnExtension(sha: bytes -> Hash, hash: Hash, s: Client, addr: SocketAddr, extId: byte, payload: bytes,
                              outs: seq<ClientOutput>, s': Client)
  {
    match Accepted(s, addr, extId, payload)
    case Some(MetadataData(piece, _, data)) => OnFragment(sha, hash, s, piece, data, outs, s')
    case Some(MetadataReject(piece)) => OnReject(s, addr, piece, outs, s')
    case _ => outs == [] && s' == s
  }

  ghost predicate ClientNext(sha: bytes -> Hash, hash: Hash, s: Client, input: ClientInput, outs: seq<ClientOutput>,
                             s': Client) {
    match input
    case Discovered(addrs) => s' == s && outs == seq(|addrs|, i requires 0 <= i < |addrs| => Connect(addrs[i]))
    case Gone(addr) => s' == s.(peers := s.peers - {addr}) && outs == []
    case Received(addr, ExtensionHandshake(hs)) => OnHandshake(s, addr, hs, outs, s')
    case Received(addr, Extension(extId, payload)) => OnExtension(sha, hash, s, addr, extId, payload, outs, s')
    case Received(_, _) => outs == [] && s' == s
  }

  // ---- The object ----

  class Metadata {
    const infoHash: Hash
    const sha: bytes -> Hash
    var totalSize: Option<nat>
    var pieces: Fragments
    var peers: map<SocketAddr, byte>

    ghost function View(): Client
      reads this
    {
      Client(totalSize, pieces, peers)
    }

    constructor (infoHash: Hash, sha: bytes -> Hash)
      ensures this.infoHash == infoHash && this.sha == sha && View() == EMPTY_CLIENT
    {
      this.infoHash, this.sha := infoHash, sha;
      totalSize, pieces, peers := None, [], map[];
    }

    method MakeRequest(addr: SocketAddr, extId: byte, piece: nat) returns (out: ClientOutput)
      ensures out == Ask(addr, extId, piece)
    {
      var payload := X.EncodeUtMetadataMessage(X.MetadataRequest(piece));
      out := Send(addr, M.Extension(extId, payload));
    }

    method RequestMissingFrom(addr: SocketAddr) returns (outs: seq<ClientOutput>)
      ensures outs == if addr in peers then AskMissing(pieces, addr, peers[addr]) else []
    {
      outs := [];
      if addr !in peers {
        return;
      }
      for i := 0 to |pieces|
        invariant outs == AskMissing(pieces[..i], addr, peers[addr])
      {
        assert pieces[..i + 1][..i] == pieces[..i];
        if pieces[i] == None {
          var request := MakeRequest(addr, peers[addr], i);
          outs := outs + [request];
        }
      }
      assert pieces[..|pieces|] == pieces;
    }

    /** The fragments joined; none is missing when this is called. */
    method Join() returns (bytes: bytes)
      ensures bytes == Assembled(pieces)
    {
      bytes := [];
      for i := 0 to |pieces|
        invariant bytes == Assembled(pieces[..i])
      {
        assert pieces[..i + 1][..i] == pieces[..i];
        bytes := bytes + match pieces[i] case Some(data) => data case None => [];
      }
      assert pieces[..|pieces|] == pieces;
    }

    method TryFinalize() returns (outs: seq<ClientOutput>)
      modifies this`pieces
      ensures Finalized(sha, infoHash, old(View()), outs, View())
    {
      var joined := Join();
      if sha(joined) == infoHash {
        return [Done(joined)];
      }
      pieces := Emptied(pieces);
      outs := RequestFromAll();
    }

    method RequestFromAll() returns (outs: seq<ClientOutput>)
      ensures exists order :: Listing(order, peers.Keys) && outs == AskEveryone(pieces, peers, order)
    {
      outs := [];
      var left := peers.Keys;
      ghost var order: seq<SocketAddr>, done: set<SocketAddr> := [], {};
      while left != {}
        invariant left <= peers.Keys && done == peers.Keys - left && Listing(order, done)
        invariant outs == AskEveryone(pieces, peers, order)
        decreases |left|
      {
        var addr :| addr in left;
        var requests := RequestMissingFrom(addr);
        ListingMore(order, done, addr);
        assert (order + [addr])[..|order|] == order;
        outs := outs + requests;
        left, order, done := left - {addr}, order + [addr], done + {addr};
      }
      assert done == peers.Keys;
    }

    method OnData(piece: nat, data: bytes) returns (outs: seq<ClientOutput>)
      modifies this`pieces
      ensures OnFragment(sha, infoHash, old(View()), piece, data, outs, View())
    {
      if piece >= |pieces| || pieces[piece].Some? {
        return [];
      }
      pieces := pieces[piece := Some(data)];
      if AllThere(pieces) {
        outs := TryFinalize();
      } else {
        outs := [];
      }
    }

    method OnRejected(addr: SocketAddr, piece: nat) returns (outs: seq<ClientOutput>)
      ensures OnReject(View(), addr, piece, outs, View())
    {
      var others := peers.Keys - {addr};
      if others == {} {
        return [];
      }
      var other :| other in others;
      var request := MakeRequest(other, peers[other], piece);
      outs := [request];
    }

    method OnHandshakeFrom(addr: SocketAddr, hs: M.ExtHandshake) returns (outs: seq<ClientOutput>)
      modifies this
      ensures OnHandshake(old(View()), addr, hs, outs, View())
    {
      if S.UT_METADATA !in hs.extensions || hs.metadataSize == None {
        return [];
      }
      if totalSize == None {
        totalSize := hs.metadataSize;
        pieces := seq(PieceCount(hs.metadataSize.value), _ => None);
      }
      peers := peers[addr := hs.extensions[S.UT_METADATA]];
      outs := RequestMissingFrom(addr);
    }

    method OnExtensionFrom(addr: SocketAddr, extId: byte, payload: bytes) returns (outs: seq<ClientOutput>)
      modifies this`pieces
      ensures OnExtension(sha, infoHash, old(View()), addr, extId, payload, outs, View())
    {
      hide OnFragment, OnReject;
      if addr !in peers || peers[addr] != extId {
        return [];
      }
      match X.DecodeUtMetadata(payload) {
        case Ok(MetadataData(piece, _, data)) => outs := OnData(piece, data);
        case Ok(MetadataReject(piece)) => outs := OnRejected(addr, piece);
        case _ => outs := [];
      }
    }

    method Step(input: ClientInput) returns (outs: seq<ClientOutput>)
      modifies this
      ensures ClientNext(sha, infoHash, old(View()), input, outs, View())
    {
      hide OnExtension, OnHandshake;
      outs := [];
      match input {
        case Discovered(addrs) => outs := seq(|addrs|, i requires 0 <= i < |addrs| => Connect(addrs[i]));
        case Gone(addr) => peers := peers - {addr};
        case Received(addr, ExtensionHandshake(hs)) => outs := OnHandshakeFrom(addr, hs);
        case Received(addr, Extension(extId, payload)) => outs := OnExtensionFrom(addr, extId, payload);
        case Received(_, _) =>
      }
    }
  }

  // ---- Runs ----

  datatype ClientStep = ClientStep(input: ClientInput, outs: seq<ClientOutput>, after: Client)

  type ClientTrace = seq<ClientStep>

  function Before(tr: ClientTrace): ClientTrace
    requires tr != []
  {
    tr[..|tr| - 1]
  }

  function Final(tr: ClientTrace): Client {
    if tr == [] then EMPTY_CLIENT else tr[|tr| - 1].after
  }

  ghost predicate ClientRun(sha: bytes -> Hash, hash: Hash, tr: ClientTrace) {
    tr != [] ==>
      && ClientRun(sha, hash, Before(tr))
      && ClientNext(sha, hash, Final(Before(tr)), tr[|tr| - 1].input, tr[|tr| - 1].outs, tr[|tr| - 1].after)
  }

  function DoneCount(outs: seq<ClientOutput>): nat {
    if outs == [] then 0 else DoneCount(outs[..|outs| - 1]) + if outs[|outs| - 1].Done? then 1 else 0
  }

  function DoneTimes(tr: ClientTrace): nat {
    if tr == [] then 0 else DoneTimes(Before(tr)) + DoneCount(tr[|tr| - 1].outs)
  }

  lemma {:induction false} NoDone(outs: seq<ClientOutput>)
    requires forall o :: o in outs ==> !o.Done?
    ensures DoneCount(outs) == 0
  {
    if outs != [] {
      NoDone(outs[..|outs| - 1]);
    }
  }

  lemma OneDone(info: bytes)
    ensures DoneCount([Done(info)]) == 1
  {
    assert [Done(info)][..0] == [];
  }

  lemma {:induction false} AskedIsMissing(pieces: Fragments, addr: SocketAddr, extId: byte)
    ensures forall o :: o in AskMissing(pieces, addr, extId) ==>
      exists i: nat :: i < |pieces| && pieces[i] == None && o == Ask(addr, extId, i)
  {
    if pieces != [] {
      var n := |pieces| - 1;
      AskedIsMissing(pieces[..n], addr, extId);
      hide Ask;
      forall o | o in AskMissing(pieces, addr, extId)
        ensures exists i: nat :: i < |pieces| && pieces[i] == None && o == Ask(addr, extId, i) {
        if o in AskMissing(pieces[..n], addr, extId) {
          var i: nat :| i < n && pieces[..n][i] == None && o == Ask(addr, extId, i);
          assert pieces[i] == None;
        } else {
          assert pieces[n] == None && o == Ask(addr, extId, n);
        }
      }
    }
  }

  lemma {:induction false} MissingIsAsked(pieces: Fragments, addr: SocketAddr, extId: byte, i: nat)
    requires i < |pieces| && pieces[i] == None
    ensures Ask(addr, extId, i) in AskMissing(pieces, addr, extId)
    decreases |pieces|
  {
    hide Ask;
    if i < |pieces| - 1 {
      MissingIsAsked(pieces[..|pieces| - 1], addr, extId, i);
    }
  }

  lemma AsksOnly(pieces: Fragments, addr: SocketAddr, extId: byte)
    ensures forall o :: o in AskMissing(pieces, addr, extId) <==>
      exists i: nat :: i < |pieces| && pieces[i] == None && o == Ask(addr, extId, i)
  {
    AskedIsMissing(pieces, addr, extId);
    hide Ask, AskMissing;
    forall i: nat | i < |pieces| && pieces[i] == None ensures Ask(addr, extId, i) in AskMissing(pieces, addr, extId) {
      MissingIsAsked(pieces, addr, extId, i);
    }
  }

  lemma {:induction false} AsksEveryoneOnly(pieces: Fragments, peers: map<SocketAddr, byte>, order: seq<SocketAddr>)
    requires forall a :: a in order ==> a in peers
    ensures forall o :: o in AskEveryone(pieces, peers, order) <==>
      exists a, i: nat :: a in order && i < |pieces| && pieces[i] == None && o == Ask(a, peers[a], i)
  {
    if order != [] {
      var init, last := order[..|order| - 1], order[|order| - 1];
      AsksEveryoneOnly(pieces, peers, init);
      AsksOnly(pieces, last, peers[last]);
      hide Ask, AskMissing;
    }
  }

  /** The download is over: nothing can be filled in any more. */
  ghost predicate Over(s: Client) {
    s.totalSize.Some? && s.pieces != [] && AllThere(s.pieces)
  }

  ghost predicate Sized(s: Client) {
    s.totalSize == None ==> s.pieces == []
  }

  /** `Done` comes with the expected hash, and only when the last missing fragment arrives. */
  lemma StepDone(sha: bytes -> Hash, hash: Hash, s: Client, input: ClientInput, outs: seq<ClientOutput>, s': Client)
    requires ClientNext(sha, hash, s, input, outs, s') && Sized(s)
    ensures Sized(s') && (Over(s) ==> Over(s') && s'.pieces == s.pieces)
    ensures DoneCount(outs) <= 1
    ensures (DoneCount(outs) == 1 ==> !Over(s) && Over(s') && outs == [Done(Assembled(s'.pieces))])
    ensures forall o :: o in outs && o.Done? ==> sha(o.info) == hash && DoneCount(outs) == 1
  {
    match input
    case Discovered(addrs) => NoDone(outs);
    case Gone(addr) =>
    case Received(addr, ExtensionHandshake(hs)) => HandshakeDone(s, addr, hs, outs, s');
    case Received(addr, Extension(extId, payload)) => ExtensionDone(sha, hash, s, addr, extId, payload, outs, s');
    case Received(_, _) =>
  }

  lemma HandshakeDone(s: Client, addr: SocketAddr, hs: M.ExtHandshake, outs: seq<ClientOutput>, s': Client)
    requires OnHandshake(s, addr, hs, outs, s') && Sized(s)
    ensures Sized(s') && (Over(s) ==> Over(s') && s'.pieces == s.pieces)
    ensures DoneCount(outs) == 0 && forall o :: o in outs ==> !o.Done?
  {
    if S.UT_METADATA in hs.extensions && hs.metadataSize.Some? {
      AsksOnly(s'.pieces, addr, hs.extensions[S.UT_METADATA]);
    }
    NoDone(outs);
  }

  lemma ExtensionDone(sha: bytes -> Hash, hash: Hash, s: Client, addr: SocketAddr, extId: byte, payload: bytes,
                      outs: seq<ClientOutput>, s': Client)
    requires OnExtension(sha, hash, s, addr, extId, payload, outs, s') && Sized(s)
    ensures Sized(s') && (Over(s) ==> Over(s') && s'.pieces == s.pieces)
    ensures DoneCount(outs) <= 1
    ensures (DoneCount(outs) == 1 ==> !Over(s) && Over(s') && outs == [Done(Assembled(s'.pieces))])
    ensures forall o :: o in outs && o.Done? ==> sha(o.info) == hash && DoneCount(outs) == 1
  {
    hide OnFragment, OnReject;
    match Accepted(s, addr, extId, payload)
    case Some(MetadataData(piece, _, data)) => FragmentDone(sha, hash, s, piece, data, outs, s');
    case Some(MetadataReject(piece)) => RejectDone(s, addr, piece, outs, s');
    case _ => NoDone(outs);
  }

  lemma RejectDone(s: Client, addr: SocketAddr, piece: nat, outs: seq<ClientOutput>, s': Client)
    requires OnReject(s, addr, piece, outs, s')
    ensures s' == s && DoneCount(outs) == 0 && forall o :: o in outs ==> !o.Done?
  {
    NoDone(outs);
  }

  lemma FragmentDone(sha: bytes -> Hash, hash: Hash, s: Client, piece: nat, data: bytes, outs: seq<ClientOutput>,
                     s': Client)
    requires OnFragment(sha, hash, s, piece, data, outs, s') && Sized(s)
    ensures Sized(s') && (Over(s) ==> Over(s') && s'.pieces == s.pieces)
    ensures DoneCount(outs) <= 1
    ensures (DoneCount(outs) == 1 ==> !Over(s) && Over(s') && outs == [Done(Assembled(s'.pieces))])
    ensures forall o :: o in outs && o.Done? ==> sha(o.info) == hash && DoneCount(outs) == 1
  {
    if piece >= |s.pieces| || s.pieces[piece].Some? {
    } else {
      var filled := s.(pieces := s.pieces[piece := Some(data)]);
      if AllThere(filled.pieces) {
        OneDone(Assembled(filled.pieces));
        if sha(Assembled(filled.pieces)) != hash {
          var order :| Listing(order, filled.peers.Keys) && outs == AskEveryone(s'.pieces, filled.peers, order);
          AsksEveryoneOnly(s'.pieces, filled.peers, order);
          NoDone(outs);
        }
      }
    }
  }

  /** Whatever the peers send, the info bytes are reported at most once, and only with the expected hash. */
  lemma {:induction false} DoneOnceAndVerified(sha: bytes -> Hash, hash: Hash, tr: ClientTrace)
    requires ClientRun(sha, hash, tr)
    ensures DoneTimes(tr) <= 1 && (DoneTimes(tr) == 1 ==> Over(Final(tr))) && Sized(Final(tr))
    ensures tr != [] ==> forall o :: o in tr[|tr| - 1].outs && o.Done? ==> sha(o.info) == hash
  {
    if tr != [] {
      DoneOnceAndVerified(sha, hash, Before(tr));
      hide ClientNext, DoneCount, Over, Sized;
      StepDone(sha, hash, Final(Before(tr)), tr[|tr| - 1].input, tr[|tr| - 1].outs, tr[|tr| - 1].after);
    }
  }

  /** Exactly the requests for each of `n` fragments to each known peer. */
  ghost predicate AsksForAll(n: nat, peers: map<SocketAddr, byte>, outs: seq<ClientOutput>) {
    forall o :: o in outs <==> exists a, i: nat :: a in peers && i < n && o == Ask(a, peers[a], i)
  }

  lemma EveryoneIsAsked(pieces: Fragments, peers: map<SocketAddr, byte>, order: seq<SocketAddr>)
    requires Listing(order, peers.Keys) && forall i :: 0 <= i < |pieces| ==> pieces[i] == None
    ensures AsksForAll(|pieces|, peers, AskEveryone(pieces, peers, order))
  {
    AsksEveryoneOnly(pieces, peers, order);
    var outs := AskEveryone(pieces, peers, order);
    hide Ask, AskEveryone;
    forall o ensures o in outs <==> exists a, i: nat :: a in peers && i < |pieces| && o == Ask(a, peers[a], i) {
      if a, i: nat :| a in peers && i < |pieces| && o == Ask(a, peers[a], i) {
        assert a in order && pieces[i] == None;
      }
    }
  }

  /** A complete set of fragments with the wrong hash is thrown away, and all of it asked again of every peer. */
  lemma MismatchStartsOver(sha: bytes -> Hash, hash: Hash, s: Client, piece: nat, data: bytes, outs: seq<ClientOutput>,
                           s': Client)
    requires OnFragment(sha, hash, s, piece, data, outs, s') && piece < |s.pieces| && s.pieces[piece] == None
    requires var filled := s.pieces[piece := Some(data)]; AllThere(filled) && sha(Assembled(filled)) != hash
    ensures s' == s.(pieces := Emptied(s.pieces)) && AsksForAll(|s.pieces|, s.peers, outs)
  {
    var order :| Listing(order, s.peers.Keys) && outs == AskEveryone(s'.pieces, s.peers, order);
    hide AsksForAll, AskEveryone, Listing;
    EveryoneIsAsked(s'.pieces, s.peers, order);
  }

  // ---- Honest peers ----

  /** The info dictionary cut into fragments, `k` of them. */
  function Cut(info: bytes, k: nat): Fragments {
    seq(k, i requires 0 <= i < k => Some(MetadataBlock(info, i)))
  }

  /** The server's fragments, in order, are the info dictionary. */
  lemma {:induction false} CutAssembles(info: bytes, k: nat)
    requires k <= PieceCount(|info|) && |info| < U64_LIMIT
    ensures Assembled(Cut(info, k))
        == if k * METADATA_PIECE_SIZE <= |info| then info[..k * METADATA_PIECE_SIZE] else info
  {
    if k > 0 {
      CutAssembles(info, k - 1);
      assert Cut(info, k)[..k - 1] == Cut(info, k - 1);
      var start := (k - 1) * METADATA_PIECE_SIZE;
      assert start < |info| && start % U64_LIMIT == start;
      assert info[..start] + MetadataBlock(info, k - 1)
          == if k * METADATA_PIECE_SIZE <= |info| then info[..k * METADATA_PIECE_SIZE] else info;
    }
  }

  /** The sizes peers announce and the fragments they deliver are those of `info`. */
  ghost predicate Honest(info: bytes, s: Client, input: ClientInput) {
    match input
    case Received(_, ExtensionHandshake(hs)) =>
      s.totalSize == None && S.UT_METADATA in hs.extensions && hs.metadataSize.Some? ==> hs.metadataSize.value == |info|
    case Received(addr, Extension(extId, payload)) =>
      (match Accepted(s, addr, extId, payload)
       case Some(MetadataData(piece, _, data)) => piece < |s.pieces| ==> data == MetadataBlock(info, piece)
       case _ => true)
    case _ => true
  }

  ghost predicate HonestRun(sha: bytes -> Hash, info: bytes, tr: ClientTrace) {
    && ClientRun(sha, sha(info), tr)
    && (tr != [] ==> HonestRun(sha, info, Before(tr)) && Honest(info, Final(Before(tr)), tr[|tr| - 1].input))
  }

  /** The fragment an input delivers, if the client takes it. */
  function DeliveredBy(s: Client, input: ClientInput): set<nat> {
    match input
    case Received(addr, Extension(extId, payload)) =>
      (match Accepted(s, addr, extId, payload)
       case Some(MetadataData(piece, _, _)) => if piece < |s.pieces| then {piece} else {}
       case _ => {})
    case _ => {}
  }

  function Delivered(tr: ClientTrace): set<nat> {
    if tr == [] then {} else Delivered(Before(tr)) + DeliveredBy(Final(Before(tr)), tr[|tr| - 1].input)
  }

  /** The client holds exactly the delivered fragments of `info`. */
  ghost predicate Holds(info: bytes, s: Client, delivered: set<nat>) {
    && (s.totalSize == None || s.totalSize == Some(|info|))
    && |s.pieces| == (if s.totalSize == None then 0 else PieceCount(|info|))
    && (forall i :: 0 <= i < |s.pieces| ==>
          s.pieces[i] == if i in delivered then Some(MetadataBlock(info, i)) else None)
    && (forall i :: i in delivered ==> i < |s.pieces|)
  }

  lemma HoldsAll(info: bytes, s: Client, delivered: set<nat>)
    requires Holds(info, s, delivered) && AllThere(s.pieces) && s.totalSize.Some? && |info| < U64_LIMIT
    ensures Assembled(s.pieces) == info
  {
    CutAssembles(info, PieceCount(|info|));
    assert s.pieces == Cut(info, PieceCount(|info|));
  }

  lemma HonestFragment(sha: bytes -> Hash, info: bytes, s: Client, piece: nat, data: bytes, outs: seq<ClientOutput>,
                       s': Client,
                       delivered: set<nat>)
    requires 0 < |info| < U64_LIMIT && Holds(info, s, delivered) && OnFragment(sha, sha(info), s, piece, data, outs, s')
    requires piece < |s.pieces| ==> data == MetadataBlock(info, piece)
    ensures Holds(info, s', delivered + if piece < |s.pieces| then {piece} else {})
    ensures DoneCount(outs) == if !Over(s) && Over(s') then 1 else 0
    ensures forall o :: o in outs && o.Done? ==> o.info == info
  {
    hide MetadataBlock, PieceCount;
    if piece >= |s.pieces| || s.pieces[piece].Some? {
      NoDone(outs);
    } else {
      var filled := s.(pieces := s.pieces[piece := Some(data)]);
      assert Holds(info, filled, delivered + {piece});
      if AllThere(filled.pieces) {
        HoldsAll(info, filled, delivered + {piece});
        OneDone(info);
      } else {
        NoDone(outs);
      }
    }
  }

  lemma HonestStep(sha: bytes -> Hash, info: bytes, s: Client, input: ClientInput, outs: seq<ClientOutput>, s': Client,
                   delivered: set<nat>)
    requires 0 < |info| < U64_LIMIT && Holds(info, s, delivered) && Sized(s)
    requires ClientNext(sha, sha(info), s, input, outs, s') && Honest(info, s, input)
    ensures Holds(info, s', delivered + DeliveredBy(s, input))
    ensures DoneCount(outs) == if !Over(s) && Over(s') then 1 else 0
    ensures forall o :: o in outs && o.Done? ==> o.info == info
  {
    hide OnFragment, OnReject, Accepted, MetadataBlock, Assembled;
    match input
    case Discovered(_) => NoDone(outs);
    case Gone(_) => NoDone(outs);
    case Received(addr, ExtensionHandshake(hs)) =>
      HandshakeDone(s, addr, hs, outs, s');
      HonestHandshake(info, s, addr, hs, outs, s', delivered);
    case Received(addr, Extension(extId, payload)) =>
      HonestExtension(sha, info, s, addr, extId, payload, outs, s', delivered);
    case Received(_, _) => NoDone(outs);
  }

  lemma HonestExtension(sha: bytes -> Hash, info: bytes, s: Client, addr: SocketAddr, extId: byte, payload: bytes,
                        outs: seq<ClientOutput>, s': Client, delivered: set<nat>)
    requires 0 < |info| < U64_LIMIT && Holds(info, s, delivered) && Sized(s)
    requires OnExtension(sha, sha(info), s, addr, extId, payload, outs, s')
    requires Honest(info, s, Received(addr, M.Extension(extId, payload)))
    ensures Holds(info, s', delivered + DeliveredBy(s, Received(addr, M.Extension(extId, payload))))
    ensures DoneCount(outs) == if !Over(s) && Over(s') then 1 else 0
    ensures forall o :: o in outs && o.Done? ==> o.info == info
  {
    hide OnFragment, OnReject, Accepted, Holds, Over;
    match Accepted(s, addr, extId, payload)
    case Some(MetadataData(piece, _, data)) => HonestFragment(sha, info, s, piece, data, outs, s', delivered);
    case Some(MetadataReject(piece)) =>
      RejectDone(s, addr, piece, outs, s');
      assert delivered + {} == delivered;
    case _ =>
      NoDone(outs);
      assert delivered + {} == delivered;
  }

  lemma HonestHandshake(info: bytes, s: Client, addr: SocketAddr, hs: M.ExtHandshake, outs: seq<ClientOutput>,
                        s': Client, delivered: set<nat>)
    requires 0 < |info| && Holds(info, s, delivered) && OnHandshake(s, addr, hs, outs, s')
    requires s.totalSize == None && S.UT_METADATA in hs.extensions && hs.metadataSize.Some? ==>
      hs.metadataSize.value == |info|
    ensures Holds(info, s', delivered) && (Over(s') <==> Over(s))
  {
    hide MetadataBlock;
    assert PieceCount(|info|) > 0;
  }

  /**
   * Fragments of an honest exchange may come in any order, from any peers and repeatedly, mixed with
   * anything else: the info dictionary is reported exactly once, when the last fragment has been
   * delivered, and exactly as it is.
   */
  lemma {:induction false} HonestExchange(sha: bytes -> Hash, info: bytes, tr: ClientTrace)
    requires 0 < |info| < U64_LIMIT && HonestRun(sha, info, tr)
    ensures Holds(info, Final(tr), Delivered(tr))
    ensures DoneTimes(tr) ==
      if Final(tr).totalSize.Some? && (forall i: nat :: i < PieceCount(|info|) ==> i in Delivered(tr)) then 1 else 0
    ensures tr != [] ==> forall o :: o in tr[|tr| - 1].outs && o.Done? ==> o.info == info
  {
    HonestTimes(sha, info, tr);
    assert PieceCount(|info|) > 0;
    hide MetadataBlock;
  }

  lemma {:induction false} HonestTimes(sha: bytes -> Hash, info: bytes, tr: ClientTrace)
    requires 0 < |info| < U64_LIMIT && HonestRun(sha, info, tr)
    ensures Holds(info, Final(tr), Delivered(tr)) && Sized(Final(tr))
    ensures DoneTimes(tr) == if Over(Final(tr)) then 1 else 0
    ensures tr != [] ==> forall o :: o in tr[|tr| - 1].outs && o.Done? ==> o.info == info
  {
    if tr != [] {
      HonestTimes(sha, info, Before(tr));
      hide ClientNext, DoneCount, Honest, Holds, Over, Sized;
      StepDone(sha, sha(info), Final(Before(tr)), tr[|tr| - 1].input, tr[|tr| - 1].outs, tr[|tr| - 1].after);
      HonestStep(sha, info, Final(Before(tr)), tr[|tr| - 1].input, tr[|tr| - 1].outs, tr[|tr| - 1].after,
                 Delivered(Before(tr)));
    }
  }

  // ---- Both ends of the exchange ----

  /** The server's answer to a request for fragment `piece`. */
  ghost function Fragment(c: S.Config, piece: nat): X.UtMetadata {
    X.MetadataData(piece, |c.metainfo.infoBytes|, MetadataBlock(c.metainfo.infoBytes, piece))
  }

  /** The outputs are one message to the client, and the client takes from it what it asked for. */
  ghost predicate Answers(c: S.Config, client: SocketAddr, us: SocketAddr, s: Client, piece: nat, outs: seq<Output>) {
    && |outs| == 1 && outs[0].SendToPeer? && outs[0].addr == client && outs[0].message.Extension?
    && Accepted(s, us, outs[0].message.extId, outs[0].message.payload) == Some(Fragment(c, piece))
  }

  /**
   * The server replies under the id the client advertised, and the client compares it with the id the server
   * advertised: the reply is accepted exactly when the two ids are equal, and dropped otherwise.
   */
  lemma ReplyAcceptedIff(c: S.Config, server: S.State, client: SocketAddr, us: SocketAddr, s: Client, piece: nat,
                         mine: byte)
    requires piece < U64_LIMIT && |c.metainfo.infoBytes| < U64_LIMIT && us in s.peers
    requires R.PeerExtensionId(server.reg, client, S.UT_METADATA) == Some(mine)
    ensures var outs := S.MetadataReply(c, server, client, piece);
      && |outs| == 1 && outs[0].SendToPeer? && outs[0].addr == client && outs[0].message.Extension?
      && Accepted(s, us, outs[0].message.extId, outs[0].message.payload)
           == if s.peers[us] == mine then Some(Fragment(c, piece)) else None
  {
    X.UtMetadataRoundTripIff(Fragment(c, piece));
    hide X.EncodeUtMetadata, X.DecodeUtMetadata, MetadataBlock;
  }

  /**
   * A request is answered, through the encoders of both ends, exactly when the client addresses it to the id the
   * server listens on and has advertised that same id itself.
   */
  lemma RequestIsAnsweredIff(c: S.Config, server: S.State, client: SocketAddr, us: SocketAddr, s: Client, piece: nat,
                             outs: seq<Output>)
    requires piece < U64_LIMIT && |c.metainfo.infoBytes| < U64_LIMIT && us in s.peers
    requires var request := Ask(us, s.peers[us], piece).message;
      S.ExtensionOutputs(c, server, client, request.extId, request.payload, outs)
    ensures Answers(c, client, us, s, piece, outs)
      <==> s.peers[us] == M.UT_METADATA_EXT_ID
           && R.PeerExtensionId(server.reg, client, S.UT_METADATA) == Some(M.UT_METADATA_EXT_ID)
  {
    if s.peers[us] == M.UT_METADATA_EXT_ID {
      X.UtMetadataRoundTripIff(X.MetadataRequest(piece));
      var advertised := R.PeerExtensionId(server.reg, client, S.UT_METADATA);
      hide X.EncodeUtMetadata, X.DecodeUtMetadata, R.PeerExtensionId, Accepted, Fragment;
      assert outs == S.MetadataReply(c, server, client, piece);
      if advertised.Some? {
        ReplyAcceptedIff(c, server, client, us, s, piece, advertised.value);
      }
    } else {
      OtherIdsSendNothing(c, server, client, s.peers[us], Ask(us, s.peers[us], piece).message.payload, outs);
    }
  }

  /** Under any other id a payload makes the server connect at most. */
  lemma OtherIdsSendNothing(c: S.Config, server: S.State, client: SocketAddr, extId: byte, payload: bytes,
                            outs: seq<Output>)
    requires S.ExtensionOutputs(c, server, client, extId, payload, outs) && extId != M.UT_METADATA_EXT_ID
    ensures forall i :: 0 <= i < |outs| ==> outs[i].ConnectPeer?
  {
    if extId == M.UT_PEX_EXT_ID && X.DecodePex(payload).Ok? {
      var order :| Listing(order, X.DecodePex(payload).value) && outs == S.Discovered(server, order);
      UnknownConnects(server.reg, order);
    }
  }

  lemma {:induction false} UnknownConnects(reg: R.Registry, addrs: seq<SocketAddr>)
    ensures forall i :: 0 <= i < |S.Unknown(reg, addrs)| ==> S.Unknown(reg, addrs)[i].ConnectPeer?
  {
    if addrs != [] {
      UnknownConnects(reg, addrs[..|addrs| - 1]);
    }
  }

  /**
   * A peer may choose its own id for the extension, and then it cannot be used: the handshake of a peer that
   * chose 2 is accepted and makes the client ask, but the correct answer, under the id the client itself
   * advertised, is dropped.
   */
  lemma OwnIdIsIgnored(us: SocketAddr)
    ensures var hs := M.ExtHandshake(map[S.UT_METADATA := 2], Some(1));
      var s := Client(Some(1), [None], map[us := 2]);
      && OnHandshake(EMPTY_CLIENT, us, hs, [Ask(us, 2, 0)], s)
      && X.DecodeUtMetadata(X.EncodeUtMetadata(X.MetadataData(0, 1, [7]))) == Ok(X.MetadataData(0, 1, [7]))
      && Accepted(s, us, M.UT_METADATA_EXT_ID, X.EncodeUtMetadata(X.MetadataData(0, 1, [7]))) == None
  {
    X.UtMetadataRoundTripIff(X.MetadataData(0, 1, [7]));
    hide X.EncodeUtMetadata, X.DecodeUtMetadata, Ask, AskMissing;
    OneFragmentAsked(us, 2);
    assert WithSize(EMPTY_CLIENT, 1).pieces == [None];
  }

  lemma OneFragmentAsked(us: SocketAddr, extId: byte)
    ensures AskMissing([None], us, extId) == [Ask(us, extId, 0)]
  {
    var pieces: Fragments := [None];
    assert pieces[..0] == [];
    hide Ask;
  }

  // ---- A whole exchange with servers of the same torrent ----

  /** The message is what some server of this torrent replies to a request for the fragment. */
  ghost predicate RepliesWith(c: S.Config, piece: nat, extId: byte, payload: bytes) {
    piece < U64_LIMIT && exists server, client ::
      S.MetadataReply(c, server, client, piece) == [SendToPeer(client, M.Extension(extId, payload))]
  }

  /** Handshakes announce the size of the info dictionary, and every extension message is a reply of a server. */
  ghost predicate Served(c: S.Config, input: ClientInput) {
    match input
    case Received(_, ExtensionHandshake(hs)) =>
      S.UT_METADATA in hs.extensions && hs.metadataSize.Some? ==> hs.metadataSize.value == |c.metainfo.infoBytes|
    case Received(_, Extension(extId, payload)) => exists piece :: RepliesWith(c, piece, extId, payload)
    case _ => true
  }

  lemma ReplyDecodes(c: S.Config, piece: nat, extId: byte, payload: bytes)
    requires RepliesWith(c, piece, extId, payload) && |c.metainfo.infoBytes| < U64_LIMIT
    ensures X.DecodeUtMetadata(payload) == Ok(Fragment(c, piece))
  {
    X.UtMetadataRoundTripIff(Fragment(c, piece));
    hide X.EncodeUtMetadata, X.DecodeUtMetadata, MetadataBlock;
  }

  /** A reply is honest, and delivers its fragment exactly if it comes under the id the client holds for its sender. */
  lemma ServedDelivers(c: S.Config, s: Client, addr: SocketAddr, extId: byte, payload: bytes, piece: nat)
    requires RepliesWith(c, piece, extId, payload) && |c.metainfo.infoBytes| < U64_LIMIT
    ensures var input := Received(addr, M.Extension(extId, payload));
      && Honest(c.metainfo.infoBytes, s, input)
      && DeliveredBy(s, input)
           == if addr in s.peers && s.peers[addr] == extId && piece < |s.pieces| then {piece} else {}
  {
    ReplyDecodes(c, piece, extId, payload);
    hide X.DecodeUtMetadata, MetadataBlock, RepliesWith;
  }

  ghost predicate ServedRun(c: S.Config, tr: ClientTrace) {
    && ClientRun(c.sha, c.sha(c.metainfo.infoBytes), tr)
    && forall k :: 0 <= k < |tr| ==> Served(c, tr[k].input)
  }

  lemma {:induction false} ServedIsHonest(c: S.Config, tr: ClientTrace)
    requires |c.metainfo.infoBytes| < U64_LIMIT && ServedRun(c, tr)
    ensures HonestRun(c.sha, c.metainfo.infoBytes, tr)
  {
    if tr != [] {
      ServedIsHonest(c, Before(tr));
      hide ClientNext;
      InputIsHonest(c, Final(Before(tr)), tr[|tr| - 1].input);
    }
  }

  lemma InputIsHonest(c: S.Config, s: Client, input: ClientInput)
    requires |c.metainfo.infoBytes| < U64_LIMIT && Served(c, input)
    ensures Honest(c.metainfo.infoBytes, s, input)
  {
    hide RepliesWith, Accepted;
    if input.Received? && input.message.Extension? {
      var piece :| RepliesWith(c, piece, input.message.extId, input.message.payload);
      ServedDelivers(c, s, input.addr, input.message.extId, input.message.payload, piece);
    }
  }

  /**
   * Client and servers together: whatever replies of servers reach the client, in any order, from any of them and
   * repeatedly, it reports the info dictionary exactly once, when a reply for every fragment has come under the
   * right id, and reports nothing else.
   */
  lemma ServedExchange(c: S.Config, tr: ClientTrace)
    requires 0 < |c.metainfo.infoBytes| < U64_LIMIT && ServedRun(c, tr)
    ensures var info := c.metainfo.infoBytes;
      DoneTimes(tr) ==
        if Final(tr).totalSize.Some? && (forall i: nat :: i < PieceCount(|info|) ==> i in Delivered(tr)) then 1 else 0
    ensures tr != [] ==> forall o :: o in tr[|tr| - 1].outs && o.Done? ==> o.info == c.metainfo.infoBytes
  {
    hide *;
    ServedIsHonest(c, tr);
    HonestExchange(c.sha, c.metainfo.infoBytes, tr);
  }
}
