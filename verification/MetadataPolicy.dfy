/** What the metadata client does with each input, told from plain fields (metadata.rs). */
module MetadataPolicy {
  import opened Wrappers
  import opened Bytes
  import opened Peers
  import opened Torrents
  import opened MetadataExchange
  import M = Messages
  import X = ExtensionMessages
  import S = SwarmSpec
  import Conversation

  /** The output asks a peer for a fragment, under the number that peer gave. */
  ghost predicate Asks(o: ClientOutput, addr: SocketAddr, id: byte, piece: nat) {
    && o.Send? && o.addr == addr && o.message.Extension? && o.message.extId == id
    && X.DecodeUtMetadata(o.message.payload) == Ok(X.MetadataRequest(piece))
  }

  lemma AskAsks(addr: SocketAddr, id: byte, piece: nat)
    requires piece < U64_LIMIT
    ensures Asks(Ask(addr, id, piece), addr, id, piece)
  {
    hide X.DecodeUtMetadata, X.EncodeUtMetadata;
    X.UtMetadataRoundTripIff(X.MetadataRequest(piece));
  }

  /** One request for each missing fragment, in ascending order. */
  ghost predicate AsksInOrder(pieces: Fragments, addr: SocketAddr, id: byte, missing: seq<nat>,
                              outs: seq<ClientOutput>) {
    && (forall i, j :: 0 <= i < j < |missing| ==> missing[i] < missing[j])
    && (forall i :: i in missing <==> 0 <= i < |pieces| && pieces[i] == None)
    && |outs| == |missing| && forall i :: 0 <= i < |outs| ==> Asks(outs[i], addr, id, missing[i])
  }

  lemma {:induction false} MissingAreAsked(pieces: Fragments, addr: SocketAddr, id: byte) returns (missing: seq<nat>)
    requires |pieces| < U64_LIMIT
    ensures AsksInOrder(pieces, addr, id, missing, AskMissing(pieces, addr, id))
  {
    hide Asks, Ask;
    if pieces == [] {
      missing := [];
    } else {
      var n := |pieces| - 1;
      var init := MissingAreAsked(pieces[..n], addr, id);
      missing := init + if pieces[n] == None then [n] else [];
      AskAsks(addr, id, n);
      forall i ensures i in missing <==> 0 <= i < |pieces| && pieces[i] == None {
        assert i in missing <==> i in init || (i == n && pieces[n] == None);
      }
      forall i | 0 <= i < |init| ensures init[i] < n {
        assert init[i] in init;
      }
    }
  }

  /**
   * A handshake counts if it gives a number for "ut_metadata" and a size. The first size is kept, and cut every 16384
   * bytes; the sender is remembered under its number and asked for every fragment still missing, in order.
   */
  lemma HandshakeLaw(sha: bytes -> Hash, hash: Hash, s: Client, addr: SocketAddr, hs: M.ExtHandshake,
                     outs: seq<ClientOutput>, s': Client)
    requires ClientNext(sha, hash, s, Received(addr, M.ExtensionHandshake(hs)), outs, s')
    requires |s.pieces| < U64_LIMIT && (hs.metadataSize.Some? ==> hs.metadataSize.value < U64_LIMIT)
    ensures var name: bytes := [117, 116, 95, 109, 101, 116, 97, 100, 97, 116, 97];
      if name !in hs.extensions || hs.metadataSize == None then outs == [] && s' == s
      else
        && s'.peers == s.peers[addr := hs.extensions[name]]
        && (s.totalSize.Some? ==> s'.totalSize == s.totalSize && s'.pieces == s.pieces)
        && (s.totalSize == None ==>
              && s'.totalSize == hs.metadataSize && |s'.pieces| == (hs.metadataSize.value + 16383) / 16384
              && forall i :: 0 <= i < |s'.pieces| ==> s'.pieces[i] == None)
        && exists missing :: AsksInOrder(s'.pieces, addr, hs.extensions[name], missing, outs)
  {
    Conversation.MetadataName();
    hide AskMissing, AsksInOrder;
    if S.UT_METADATA in hs.extensions && hs.metadataSize.Some? {
      var missing := MissingAreAsked(s'.pieces, addr, hs.extensions[S.UT_METADATA]);
    }
  }

  /** A fragment that a known peer refuses is asked of another known peer, if there is one. */
  lemma RejectLaw(sha: bytes -> Hash, hash: Hash, s: Client, addr: SocketAddr, id: byte, payload: bytes, piece: nat,
                  outs: seq<ClientOutput>, s': Client)
    requires ClientNext(sha, hash, s, Received(addr, M.Extension(id, payload)), outs, s')
    requires addr in s.peers && s.peers[addr] == id
    requires X.DecodeUtMetadata(payload) == Ok(X.MetadataReject(piece)) && piece < U64_LIMIT
    ensures s' == s
    ensures s.peers.Keys == {addr} ==> outs == []
    ensures s.peers.Keys != {addr} ==>
      |outs| == 1 && exists other :: other in s.peers && other != addr && Asks(outs[0], other, s.peers[other], piece)
  {
    hide X.DecodeUtMetadata, Ask, Asks;
    if s.peers.Keys - {addr} == {} {
      assert s.peers.Keys == {addr};
    } else {
      var other :| other in s.peers && other != addr && outs == [Ask(other, s.peers[other], piece)];
      AskAsks(other, s.peers[other], piece);
    }
  }

  /** A fragment is kept if it is the first for its place and a known peer sent it under the number it gave. */
  lemma FragmentLaw(sha: bytes -> Hash, hash: Hash, s: Client, addr: SocketAddr, id: byte, payload: bytes, piece: nat,
                    size: nat, data: bytes, outs: seq<ClientOutput>, s': Client)
    requires ClientNext(sha, hash, s, Received(addr, M.Extension(id, payload)), outs, s')
    requires X.DecodeUtMetadata(payload) == Ok(X.MetadataData(piece, size, data))
    ensures s'.peers == s.peers && s'.totalSize == s.totalSize
    ensures var taken := addr in s.peers && s.peers[addr] == id && piece < |s.pieces| && s.pieces[piece] == None;
      if !taken then outs == [] && s'.pieces == s.pieces
      else
        var filled := s.pieces[piece := Some(data)];
        if exists i :: 0 <= i < |filled| && filled[i] == None then outs == [] && s'.pieces == filled
        else if sha(Assembled(filled)) == hash then outs == [Done(Assembled(filled))] && s'.pieces == filled
        else |s'.pieces| == |s.pieces| && forall i :: 0 <= i < |s'.pieces| ==> s'.pieces[i] == None
  {
    hide X.DecodeUtMetadata, AskEveryone, Assembled;
  }

  /** Discovered peers are dialled in order, and a peer that is gone is forgotten; everything else is ignored. */
  lemma OtherInputs(sha: bytes -> Hash, hash: Hash, s: Client, input: ClientInput, outs: seq<ClientOutput>, s': Client)
    requires ClientNext(sha, hash, s, input, outs, s')
    ensures input.Discovered? ==>
      s' == s && |outs| == |input.addrs| && forall i :: 0 <= i < |outs| ==> outs[i] == Connect(input.addrs[i])
    ensures input.Gone? ==> outs == [] && s' == s.(peers := s.peers - {input.addr})
    ensures input.Received? && !input.message.ExtensionHandshake? && !input.message.Extension? ==>
      outs == [] && s' == s
    ensures input.Received? && input.message.Extension? ==>
      input.addr !in s.peers || s.peers[input.addr] != input.message.extId ==> outs == [] && s' == s
  {
    hide X.DecodeUtMetadata, OnHandshake;
  }
}
