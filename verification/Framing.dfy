/** Length framing of the TCP stream (peer_io.rs): `Message::frame` and `Message::read_from`. */
module Framing {
  import opened Wrappers
  import opened Bytes
  import opened Messages
  import Bencodes

  datatype ReadError = Io | MessageTooLarge | MessageDecode(error: Error)

  const MAX_MESSAGE_SIZE: nat := 1024 * 1024

  ghost function Frame(m: Message): bytes {
    BeU32(|Encode(m)|) + Encode(m)
  }

  /** What `read_from` returns on the bytes the peer has sent and will send, and what it leaves unread. */
  ghost function Receive(utf8: bytes -> bool, stream: bytes): Result<(Message, bytes), ReadError> {
    if |stream| < 4 then Err(Io)
    else
      var len := FromBeU32(stream[..4]);
      if len > MAX_MESSAGE_SIZE then Err(MessageTooLarge)
      else if |stream| - 4 < len then Err(Io)
      else match Decode(utf8, stream[4..4 + len])
        case Err(e) => Err(MessageDecode(e))
        case Ok(m) => Ok((m, stream[4 + len..]))
  }

  /** `AsyncRead` at the granularity the protocol uses: all of the bytes asked for, or an error. */
  class Reader {
    var unread: bytes

    method ReadExact(n: nat) returns (r: Option<bytes>)
      modifies this
      ensures n <= |old(unread)| ==> r == Some(old(unread)[..n]) && unread == old(unread)[n..]
      ensures n > |old(unread)| ==> r == None
    {
      if n > |unread| {
        unread := [];
        return None;
      }
      r := Some(unread[..n]);
      unread := unread[n..];
    }
  }

  /** `Message::encode`: what it builds is read back as the message exactly when the message may be sent. */
  method EncodeMessage(m: Message) returns (payload: bytes)
    ensures payload == Encode(m)
    ensures Representable(m) ==> forall utf8: bytes -> bool :: Decode(utf8, payload) == Ok(m) <==> Sendable(utf8, m)
  {
    payload := EncodeFields(m);
    hide *;
    if Representable(m) {
      forall utf8: bytes -> bool ensures Decode(utf8, payload) == Ok(m) <==> Sendable(utf8, m) {
        DecodeUndoesEncodeIff(utf8, m);
      }
    }
  }

  method EncodeHandshake(hs: ExtHandshake) returns (payload: bytes)
    ensures payload == [20] + ([0] + Bencodes.Encode(HandshakeToBencode(hs)))
  {
    hide HandshakeToBencode;
    var buf := new Bencodes.Buffer();
    buf.Extend([20, 0]);
    Bencodes.EncodeInto(HandshakeToBencode(hs), buf);
    payload := buf.data;
    Reassociate([20], [0], Bencodes.Encode(HandshakeToBencode(hs)));
  }

  /** The fields appended to a local buffer. */
  method EncodeFields(m: Message) returns (payload: bytes)
    ensures payload == Encode(m)
  {
    hide HandshakeToBencode, EncodeRange, BeU32, Bencodes.Encode;
    match m {
      case KeepAlive => payload := [];
      case Choke => payload := [0];
      case Unchoke => payload := [1];
      case Interested => payload := [2];
      case NotInterested => payload := [3];
      case Have(piece) => payload := [4] + BeU32(piece);
      case Bitfield(bits) => payload := [5] + bits;
      case Request(range) => payload := [6] + EncodeRange(range);
      case Piece(range, data) => payload := [7] + (BeU32(range.pieceIndex) + BeU32(range.pieceOffset) + data);
      case Cancel(range) => payload := [8] + EncodeRange(range);
      case ExtensionHandshake(hs) =>
        payload := EncodeHandshake(hs);
      case Extension(extId, payloadBytes) => payload := [20] + ([extId] + payloadBytes);
      case HaveAll => payload := [14];
      case HaveNone => payload := [15];
      case SuggestPiece(piece) => payload := [13] + BeU32(piece);
      case RejectRequest(range) => payload := [16] + EncodeRange(range);
      case AllowedFast(piece) => payload := [17] + BeU32(piece);
      case Unimplemented => payload := [];
    }
  }

  method ReadFrom(utf8: bytes -> bool, reader: Reader) returns (r: Result<Message, ReadError>)
    modifies reader
    ensures match Receive(utf8, old(reader.unread))
      case Err(e) => r == Err(e)
      case Ok((m, rest)) => r == Ok(m) && reader.unread == rest
  {
    var header := reader.ReadExact(4);
    if header == None {
      return Err(Io);
    }
    var len := FromBeU32(header.value);
    if len > MAX_MESSAGE_SIZE {
      return Err(MessageTooLarge);
    }
    var payload := reader.ReadExact(len);
    if payload == None {
      return Err(Io);
    }
    assert old(reader.unread)[4..][..len] == old(reader.unread)[4..4 + len];
    match Decode(utf8, payload.value) {
      case Err(e) => return Err(MessageDecode(e));
      case Ok(m) => return Ok(m);
    }
  }

  /** A frame is read back as the same message, and nothing more, exactly when it may be sent. */
  lemma FrameRoundTripIff(utf8: bytes -> bool, m: Message, rest: bytes)
    requires Representable(m) && |Encode(m)| < U32_LIMIT
    ensures Receive(utf8, Frame(m) + rest) == Ok((m, rest))
      <==> Sendable(utf8, m) && |Encode(m)| <= MAX_MESSAGE_SIZE
  {
    hide Decode, Encode, Sendable;
    BeU32RoundTrip(|Encode(m)|);
    DecodeUndoesEncodeIff(utf8, m);
    ReceiveAt(utf8, BeU32(|Encode(m)|), Encode(m), rest);
  }

  /**
   * `Message::frame`: the length, then the payload. A receiver reads the message back from it, and nothing of
   * what follows, exactly when the message may be sent and is not too large.
   */
  method FrameMessage(m: Message) returns (buf: bytes)
    ensures buf == Frame(m)
    ensures Representable(m) && |Encode(m)| < U32_LIMIT ==>
      forall utf8: bytes -> bool, rest: bytes ::
        Receive(utf8, buf + rest) == Ok((m, rest)) <==> Sendable(utf8, m) && |Encode(m)| <= MAX_MESSAGE_SIZE
  {
    var payload := EncodeMessage(m);
    buf := BeU32(|payload|);
    buf := buf + payload;
    hide Receive, Sendable, Encode, Representable;
    forall utf8: bytes -> bool, rest: bytes | Representable(m) && |Encode(m)| < U32_LIMIT
      ensures Receive(utf8, buf + rest) == Ok((m, rest)) <==> Sendable(utf8, m) && |Encode(m)| <= MAX_MESSAGE_SIZE {
      FrameRoundTripIff(utf8, m, rest);
    }
  }

  lemma ReceiveAt(utf8: bytes -> bool, header: bytes, payload: bytes, rest: bytes)
    requires |header| == 4 && FromBeU32(header) == |payload|
    ensures Receive(utf8, header + payload + rest)
         == if |payload| > MAX_MESSAGE_SIZE then Err(MessageTooLarge)
            else match Decode(utf8, payload)
              case Err(e) => Err(MessageDecode(e))
              case Ok(m) => Ok((m, rest))
  {
    hide Decode;
    FrameParts(header, payload, rest);
  }

  lemma FrameParts(header: bytes, payload: bytes, rest: bytes)
    requires |header| == 4
    ensures var stream := header + payload + rest;
      stream[..4] == header && stream[4..4 + |payload|] == payload && stream[4 + |payload|..] == rest
  {
  }

  ghost function Frames(ms: seq<Message>): bytes {
    if ms == [] then [] else Frame(ms[0]) + Frames(ms[1..])
  }

  /** `n` successive calls of `read_from`. */
  ghost function ReceiveMany(utf8: bytes -> bool, stream: bytes, n: nat): Result<(seq<Message>, bytes), ReadError> {
    if n == 0 then Ok(([], stream))
    else match Receive(utf8, stream)
      case Err(e) => Err(e)
      case Ok((m, rest)) =>
        match ReceiveMany(utf8, rest, n - 1)
        case Err(e) => Err(e)
        case Ok((ms, after)) => Ok(([m] + ms, after))
  }

  ghost predicate Deliverable(utf8: bytes -> bool, m: Message) {
    Representable(m) && Sendable(utf8, m) && |Encode(m)| <= MAX_MESSAGE_SIZE
  }

  /** The receiver reads the sender's messages in order, and the stream stays aligned after them. */
  lemma {:induction false} StreamRoundTrip(utf8: bytes -> bool, ms: seq<Message>, rest: bytes)
    requires forall m :: m in ms ==> Deliverable(utf8, m)
    ensures ReceiveMany(utf8, Frames(ms) + rest, |ms|) == Ok((ms, rest))
  {
    if ms == [] {
      assert Frames(ms) + rest == rest;
    } else {
      assert ms[0] in ms;
      var m, tail := ms[0], Frames(ms[1..]) + rest;
      assert Receive(utf8, Frame(m) + tail) == Ok((m, tail)) by { DeliverableRoundTrip(utf8, m, tail); }
      hide Deliverable, Frame, Receive;
      Reassociate(Frame(m), Frames(ms[1..]), rest);
      StreamRoundTrip(utf8, ms[1..], rest);
      assert ms == [ms[0]] + ms[1..];
    }
  }

  lemma DeliverableRoundTrip(utf8: bytes -> bool, m: Message, rest: bytes)
    requires Deliverable(utf8, m)
    ensures Receive(utf8, Frame(m) + rest) == Ok((m, rest))
  {
    hide Decode, Encode, Sendable, Representable;
    FrameRoundTripIff(utf8, m, rest);
  }

  /**
   * A read that succeeds consumes a whole frame: the stream is what the received message would be
   * framed as, unless the message is one that re-encodes differently.
   */
  lemma ReceiveConsumesFrame(utf8: bytes -> bool, stream: bytes)
    requires Receive(utf8, stream).Ok?
    ensures var (m, rest) := Receive(utf8, stream).value;
      |stream| >= 4 && |rest| == |stream| - 4 - FromBeU32(stream[..4])
      && (Encode(m) == stream[4..|stream| - |rest|] <==> Frame(m) + rest == stream)
  {
    var (m, rest) := Receive(utf8, stream).value;
    var body := stream[4..|stream| - |rest|];
    BeU32Inverse(stream[..4]);
    assert stream == stream[..4] + body + rest;
    BeU32RoundTrip(|Encode(m)|);
    if Frame(m) + rest == stream {
      assert |Frame(m)| == |stream| - |rest|;
      FrameParts(BeU32(|Encode(m)|), Encode(m), rest);
    }
  }
}
