/** The wire formats byte by byte: numbers, message layouts and dictionary keys (message.rs, peer_io.rs). */
module WireFormat {
  import opened Wrappers
  import opened Bytes
  import opened Peers
  import opened Messages
  import opened ExtensionMessages
  import Bencodes
  import Bitfields
  import Framing

  // ---- Numbers ----

  /** Four bytes, most significant first. */
  function Word(n: nat): bytes
    requires n < 0x1_0000_0000
  {
    [n / 0x100_0000, n / 0x1_0000 % 0x100, n / 0x100 % 0x100, n % 0x100]
  }

  lemma HighHalf(n: nat)
    requires n < 0x1_0000_0000
    ensures n / 0x1_0000 < 0x1_0000 && n / 0x1_0000 / 0x100 == n / 0x100_0000
  {
  }

  lemma LowHalf(n: nat)
    ensures n % 0x1_0000 / 0x100 == n / 0x100 % 0x100 && n % 0x1_0000 % 0x100 == n % 0x100
  {
    var h, l := n / 0x1_0000, n % 0x1_0000;
    assert n == h * 0x1_0000 + l;
    assert n / 0x100 == h * 0x100 + l / 0x100;
  }

  lemma HalfIs(n: nat)
    ensures BeU16(n) == [n % 0x1_0000 / 0x100, n % 0x1_0000 % 0x100]
  {
  }

  lemma WordIs(n: nat)
    requires n < 0x1_0000_0000
    ensures BeU32(n) == Word(n)
  {
    HighHalf(n);
    LowHalf(n);
    HalfIs(n);
    HalfIs(n / 0x1_0000);
    SmallRemainder(n / 0x1_0000, 0x1_0000);
    hide BeU16;
  }

  function RangeWords(r: BlockRange): bytes
    requires RangeFits(r)
  {
    Word(r.pieceIndex) + Word(r.pieceOffset) + Word(r.len)
  }

  // ---- Messages ----

  /** The layout of a message whose fields fit: its number, then its fields. */
  ghost predicate LaidOutAs(m: Message, data: bytes) {
    match m
    case KeepAlive => data == []
    case Choke => data == [0]
    case Unchoke => data == [1]
    case Interested => data == [2]
    case NotInterested => data == [3]
    case Have(piece) => piece < 0x1_0000_0000 && data == [4] + Word(piece)
    case Bitfield(bits) => data == [5] + bits
    case Request(range) => RangeFits(range) && data == [6] + RangeWords(range)
    case Piece(range, block) =>
      && range.pieceIndex < 0x1_0000_0000 && range.pieceOffset < 0x1_0000_0000 && range.len == |block|
      && data == [7] + (Word(range.pieceIndex) + Word(range.pieceOffset) + block)
    case Cancel(range) => RangeFits(range) && data == [8] + RangeWords(range)
    case SuggestPiece(piece) => piece < 0x1_0000_0000 && data == [13] + Word(piece)
    case HaveAll => data == [14]
    case HaveNone => data == [15]
    case RejectRequest(range) => RangeFits(range) && data == [16] + RangeWords(range)
    case AllowedFast(piece) => piece < 0x1_0000_0000 && data == [17] + Word(piece)
    case Extension(id, payload) => id != 0 && data == [20] + ([id] + payload)
    case ExtensionHandshake(_) => false
    case Unimplemented => false
  }

  /** A message with a fixed layout is written in it, and read from it, and from nothing longer. */
  lemma LayoutIs(utf8: bytes -> bool, m: Message)
    requires Sendable(utf8, m) && !m.ExtensionHandshake?
    ensures LaidOutAs(m, Encode(m))
  {
    match m {
      case Have(piece) => WordIs(piece);
      case SuggestPiece(piece) => WordIs(piece);
      case AllowedFast(piece) => WordIs(piece);
      case Request(range) => RangeIs(range);
      case Cancel(range) => RangeIs(range);
      case RejectRequest(range) => RangeIs(range);
      case Piece(range, _) =>
        WordIs(range.pieceIndex);
        WordIs(range.pieceOffset);
      case _ =>
    }
  }

  lemma RangeIs(range: BlockRange)
    requires RangeFits(range)
    ensures EncodeRange(range) == RangeWords(range)
  {
    WordIs(range.pieceIndex);
    WordIs(range.pieceOffset);
    WordIs(range.len);
  }

  /** The bytes after the number of a message that are too few or too many for it. */
  ghost predicate Malformed(data: bytes)
    requires data != []
  {
    var n := |data| - 1;
    || (data[0] in {4, 13, 17} && n != 4)
    || (data[0] in {6, 8, 16} && n != 12)
    || (data[0] == 7 && n < 8)
    || (data[0] in {14, 15} && n != 0)
    || (data[0] == 20 && n == 0)
    || (data[0] == 20 && n > 0 && data[1] == 0 && Bencodes.ParseValue(data[2..]).Err?)
  }

  lemma FourBytes(s: bytes, at: nat)
    requires at + 4 <= |s|
    ensures ReadU32(s, at) < 0x1_0000_0000 && Word(ReadU32(s, at)) == s[at..at + 4]
  {
    BeU32Inverse(s[at..at + 4]);
    WordIs(ReadU32(s, at));
  }

  lemma ThreeWords(s: bytes)
    requires |s| == 12
    ensures DecodeRange(s).Ok? && RangeFits(DecodeRange(s).value) && RangeWords(DecodeRange(s).value) == s
  {
    FourBytes(s, 0);
    FourBytes(s, 4);
    FourBytes(s, 8);
  }

  ghost predicate ReadRight(utf8: bytes -> bool, data: bytes)
    requires data != []
  {
    && (Decode(utf8, data).Err? <==> Malformed(data))
    && (!Malformed(data) ==>
          var m := Decode(utf8, data).value;
          if data[0] == 20 && data[1] == 0 then m.ExtensionHandshake?
          else if data[0] < 4 then LaidOutAs(m, data[..1])
          else if data[0] in {4, 5, 6, 7, 8, 13, 14, 15, 16, 17, 20} then LaidOutAs(m, data)
          else m == Unimplemented)
  }

  lemma ReadsWord(utf8: bytes -> bool, data: bytes)
    requires data != [] && data[0] in {4, 13, 17}
    ensures ReadRight(utf8, data)
  {
    var payload := data[1..];
    assert data == [data[0]] + payload;
    if |payload| == 4 {
      FourBytes(payload, 0);
      assert payload[0..4] == payload;
      hide Word, ReadU32;
      PieceNumberDecodes(utf8, data);
    }
  }

  lemma ReadsRange(utf8: bytes -> bool, data: bytes)
    requires data != [] && data[0] in {6, 8, 16}
    ensures ReadRight(utf8, data)
  {
    var payload := data[1..];
    assert data == [data[0]] + payload;
    if |payload| == 12 {
      ThreeWords(payload);
      hide Word, ReadU32, RangeWords, Decode, DecodeRange;
      RangeDecodes(utf8, data[0], payload);
    } else {
      hide ReadU32, RangeWords;
    }
  }

  lemma ReadsBlock(utf8: bytes -> bool, data: bytes)
    requires data != [] && data[0] == 7
    ensures ReadRight(utf8, data)
  {
    var payload := data[1..];
    assert data == [7] + payload;
    if |payload| >= 8 {
      FourBytes(payload, 0);
      FourBytes(payload, 4);
      assert payload == payload[0..4] + payload[4..8] + payload[8..];
      hide Word, ReadU32;
    }
  }

  lemma ReadsExtension(utf8: bytes -> bool, data: bytes)
    requires data != [] && data[0] == 20
    ensures ReadRight(utf8, data)
  {
    hide Bencodes.ParseValue, HandshakeFromBencode;
    var payload := data[1..];
    assert data == [20] + payload;
    if payload != [] {
      assert payload == [payload[0]] + payload[1..] && data[2..] == payload[1..];
    }
  }

  lemma ReadsOther(utf8: bytes -> bool, data: bytes)
    requires data != [] && data[0] !in {4, 6, 7, 8, 13, 16, 17, 20}
    ensures ReadRight(utf8, data)
  {
    hide Bencodes.ParseValue, HandshakeFromBencode, ReadU32, Word;
    assert data == [data[0]] + data[1..];
  }

  /**
   * Every input that is not malformed is read, as the message it is the layout of: another number is skipped over,
   * number 20 with a zero is an extension handshake, and the four messages without a body are read whatever follows.
   */
  lemma ReadAsLaidOut(utf8: bytes -> bool, data: bytes)
    requires data != []
    ensures Decode(utf8, data).Err? <==> Malformed(data)
    ensures !Malformed(data) ==>
      var m := Decode(utf8, data).value;
      if data[0] == 20 && data[1] == 0 then m.ExtensionHandshake?
      else if data[0] < 4 then LaidOutAs(m, data[..1])
      else if data[0] in {4, 5, 6, 7, 8, 13, 14, 15, 16, 17, 20} then LaidOutAs(m, data)
      else m == Unimplemented
  {
    hide Decode, Malformed, LaidOutAs;
    var id := data[0];
    if id in {4, 13, 17} {
      ReadsWord(utf8, data);
    } else if id in {6, 8, 16} {
      ReadsRange(utf8, data);
    } else if id == 7 {
      ReadsBlock(utf8, data);
    } else if id == 20 {
      ReadsExtension(utf8, data);
    } else {
      ReadsOther(utf8, data);
    }
  }

  /** A frame is its length in four bytes, then the message; 1048576 bytes are the most that is read. */
  lemma FrameIs(m: Message)
    requires |Encode(m)| < 0x1_0000_0000
    ensures Framing.Frame(m) == Word(|Encode(m)|) + Encode(m)
  {
    hide Encode;
    WordIs(|Encode(m)|);
  }

  lemma LongFramesAreRefused(utf8: bytes -> bool, n: nat, rest: bytes)
    requires n < 0x1_0000_0000
    ensures Framing.Receive(utf8, Word(n) + rest) == Err(Framing.MessageTooLarge) <==> n > 1048576
  {
    WordIs(n);
    BeU32RoundTrip(n);
    assert (BeU32(n) + rest)[..4] == BeU32(n);
    hide Decode;
  }

  // ---- Keys ----

  const M_KEY: bytes := [109]
  const METADATA_SIZE: bytes := [109, 101, 116, 97, 100, 97, 116, 97, 95, 115, 105, 122, 101]
  const MSG_TYPE: bytes := [109, 115, 103, 95, 116, 121, 112, 101]
  const PIECE: bytes := [112, 105, 101, 99, 101]
  const TOTAL_SIZE: bytes := [116, 111, 116, 97, 108, 95, 115, 105, 122, 101]
  const ADDED: bytes := [97, 100, 100, 101, 100]
  const ADDED6: bytes := [97, 100, 100, 101, 100, 54]
  const DROPPED: bytes := [100, 114, 111, 112, 112, 101, 100]
  const DROPPED6: bytes := [100, 114, 111, 112, 112, 101, 100, 54]

  lemma Keys()
    ensures KEY_M == M_KEY && KEY_METADATA_SIZE == METADATA_SIZE && KEY_MSG_TYPE == MSG_TYPE && KEY_PIECE == PIECE
    ensures KEY_TOTAL_SIZE == TOTAL_SIZE && KEY_ADDED == ADDED && KEY_ADDED6 == ADDED6 && KEY_DROPPED == DROPPED
    ensures KEY_DROPPED6 == DROPPED6
  {
    assert "m" == ['m'] && "metadata_size" == ['m', 'e', 't', 'a', 'd', 'a', 't', 'a', '_', 's', 'i', 'z', 'e'];
    assert "msg_type" == ['m', 's', 'g', '_', 't', 'y', 'p', 'e'] && "piece" == ['p', 'i', 'e', 'c', 'e'];
    assert "total_size" == ['t', 'o', 't', 'a', 'l', '_', 's', 'i', 'z', 'e'];
    assert "added" == ['a', 'd', 'd', 'e', 'd'] && "added6" == ['a', 'd', 'd', 'e', 'd', '6'];
    assert "dropped" == ['d', 'r', 'o', 'p', 'p', 'e', 'd'] && "dropped6" == ['d', 'r', 'o', 'p', 'p', 'e', 'd', '6'];
  }

  type Entries = map<bytes, Bencodes.Bencode>

  /**
   * An extension handshake as it is read: the small numbers under UTF-8 names in "m", and a size that is not
   * negative.
   */
  lemma HandshakeIsRead(utf8: bytes -> bool, d: Entries, name: bytes, id: byte)
    ensures var hs := HandshakeFromBencode(utf8, Bencodes.Dict(d));
      && (name in hs.extensions && hs.extensions[name] == id <==>
            && M_KEY in d && d[M_KEY].Dict? && name in d[M_KEY].entries && utf8(name)
            && d[M_KEY].entries[name] == Bencodes.Int(id))
      && (forall n: nat :: hs.metadataSize == Some(n) <==> METADATA_SIZE in d && d[METADATA_SIZE] == Bencodes.Int(n))
  {
    Keys();
  }

  /** And as it is written. */
  lemma HandshakeIsWritten(hs: ExtHandshake)
    requires hs.metadataSize.Some? ==> hs.metadataSize.value < 0x8000_0000_0000_0000
    ensures var v := HandshakeToBencode(hs);
      && v.Dict? && v.entries.Keys == {M_KEY} + (if hs.metadataSize.Some? then {METADATA_SIZE} else {})
      && v.entries[M_KEY].Dict? && v.entries[M_KEY].entries.Keys == hs.extensions.Keys
      && (forall name :: name in hs.extensions ==>
            v.entries[M_KEY].entries[name] == Bencodes.Int(hs.extensions[name]))
      && (hs.metadataSize.Some? ==> v.entries[METADATA_SIZE] == Bencodes.Int(hs.metadataSize.value))
  {
    Keys();
  }

  /** A metadata message as it is read: the kind under "msg_type", the piece, and for data the size and what follows. */
  lemma MetadataIsRead(payload: bytes, d: Entries, rest: bytes, kind: int, piece: nat)
    requires Bencodes.ParseValue(payload) == Ok((Bencodes.Dict(d), rest))
    requires MSG_TYPE in d && d[MSG_TYPE] == Bencodes.Int(kind)
    requires PIECE in d && d[PIECE] == Bencodes.Int(piece) && piece < 0x1_0000_0000_0000_0000
    ensures kind == 0 ==> DecodeUtMetadata(payload) == Ok(MetadataRequest(piece))
    ensures kind == 1 ==> forall size: nat :: size < 0x1_0000_0000_0000_0000 ==>
      (DecodeUtMetadata(payload) == Ok(MetadataData(piece, size, rest)) <==>
       TOTAL_SIZE in d && d[TOTAL_SIZE].Int? && d[TOTAL_SIZE].n % 0x1_0000_0000_0000_0000 == size)
    ensures kind == 2 ==> DecodeUtMetadata(payload) == Ok(MetadataReject(piece))
    ensures kind !in {0, 1, 2} ==> DecodeUtMetadata(payload) == Ok(MetadataUnimplemented)
  {
    Keys();
    hide Bencodes.ParseValue;
  }

  // ---- Compact addresses ----

  /** The `k`-th group of six bytes is the address: four bytes, then the port, most significant byte first. */
  ghost predicate AddressAt(s: bytes, k: nat, a: SocketAddr) {
    && 6 * k + 6 <= |s| && a.V4?
    && s[6 * k..6 * k + 6] == [a.a, a.b, a.c, a.d, a.port / 256, a.port % 256]
  }

  ghost predicate Lists(d: Entries, key: bytes, a: SocketAddr) {
    key in d && d[key].Bytes? && exists k: nat :: AddressAt(d[key].data, k, a)
  }

  lemma CompactIs(s: bytes, a: SocketAddr)
    requires |s| == 6
    ensures CompactV4(s) == a <==> a.V4? && s == [a.a, a.b, a.c, a.d, a.port / 256, a.port % 256]
  {
    assert s == [s[0], s[1], s[2], s[3], s[4], s[5]];
  }

  lemma {:induction false} ParsedAddresses(s: bytes, a: SocketAddr)
    requires |s| % 6 == 0
    ensures a in ParseV4(s) <==> exists k: nat :: AddressAt(s, k, a)
  {
    if s != [] {
      ParsedAddresses(s[6..], a);
      CompactIs(s[..6], a);
      assert ParseV4(s) == [CompactV4(s[..6])] + ParseV4(s[6..]);
      hide ParseV4, CompactV4;
      if exists k: nat :: AddressAt(s[6..], k, a) {
        var k: nat :| AddressAt(s[6..], k, a);
        assert s[6..][6 * k..6 * k + 6] == s[6 * (k + 1)..6 * (k + 1) + 6];
        assert AddressAt(s, k + 1, a);
      }
      if exists k: nat :: AddressAt(s, k, a) {
        var k: nat :| AddressAt(s, k, a);
        if k > 0 {
          assert s[6..][6 * (k - 1)..6 * (k - 1) + 6] == s[6 * k..6 * k + 6];
          assert AddressAt(s[6..], k - 1, a);
        } else {
          assert s[0..6] == s[..6];
        }
      }
      if a == CompactV4(s[..6]) {
        assert s[0..6] == s[..6];
        assert AddressAt(s, 0, a);
      }
    }
  }

  lemma FieldLists(d: Entries, key: bytes, a: SocketAddr)
    requires !FieldBroken(d, key)
    ensures a in FieldAddrs(d, key) <==> Lists(d, key, a)
    ensures HasField(d, key) ==> |d[key].data| % 6 == 0
  {
    if HasField(d, key) {
      NoV6Decoded(d[key].data);
      ParsedAddresses(d[key].data, a);
    }
    hide ParseV4, AddressAt;
  }

  /** A peer exchange reports what "added" and "added6" list, without what "dropped" and "dropped6" list. */
  lemma ExchangeIsRead(payload: bytes, d: Entries, rest: bytes, a: SocketAddr)
    requires Bencodes.ParseValue(payload) == Ok((Bencodes.Dict(d), rest)) && DecodePex(payload).Ok?
    ensures a in DecodePex(payload).value <==>
      (Lists(d, ADDED, a) || Lists(d, ADDED6, a)) && !Lists(d, DROPPED, a) && !Lists(d, DROPPED6, a)
  {
    Keys();
    hide Bencodes.ParseValue, FieldAddrs, FieldBroken, HasField, Lists;
    FieldLists(d, ADDED, a);
    FieldLists(d, ADDED6, a);
    FieldLists(d, DROPPED, a);
    FieldLists(d, DROPPED6, a);
  }

  /** It is refused exactly if it has none of these four strings, or one whose length is not a multiple of six. */
  lemma ExchangeIsRefusedIff(payload: bytes, d: Entries, rest: bytes)
    requires Bencodes.ParseValue(payload) == Ok((Bencodes.Dict(d), rest))
    ensures var keys := set k | k in {ADDED, ADDED6, DROPPED, DROPPED6} && k in d && d[k].Bytes?;
      DecodePex(payload).Err? <==> keys == {} || exists k :: k in keys && |d[k].data| % 6 != 0
  {
    Keys();
    hide Bencodes.ParseValue, ParseV4, ParseV6;
    var keys := set k | k in {ADDED, ADDED6, DROPPED, DROPPED6} && k in d && d[k].Bytes?;
    forall k | k in keys ensures FieldBroken(d, k) <==> |d[k].data| % 6 != 0 {
      if ParseSocketAddrs(d[k].data).Ok? {
        NoV6Decoded(d[k].data);
      }
    }
    assert ADDED in keys <==> HasField(d, ADDED);
    assert ADDED6 in keys <==> HasField(d, ADDED6);
    assert DROPPED in keys <==> HasField(d, DROPPED);
    assert DROPPED6 in keys <==> HasField(d, DROPPED6);
  }

  /** The `k`-th group of a string is the address: its bytes, then the port. */
  ghost predicate WrittenAt(s: bytes, k: nat, a: SocketAddr) {
    match a
    case V4(w, x, y, z, port) => 6 * k + 6 <= |s| && s[6 * k..6 * k + 6] == [w, x, y, z, port / 256, port % 256]
    case V6(octets, port) => 18 * k + 18 <= |s| && s[18 * k..18 * k + 18] == octets + [port / 256, port % 256]
  }

  lemma PortIs(port: u16)
    ensures BeU16(port) == [port / 256, port % 256]
  {
    SmallRemainder(port, U16_LIMIT);
  }

  lemma SmallRemainder(n: nat, m: nat)
    requires n < m
    ensures n % m == n
  {
  }

  lemma WrittenFirst(a: SocketAddr, rest: bytes)
    ensures WrittenAt(Compact(a) + rest, 0, a)
  {
    PortIs(a.port);
    hide BeU16;
    var s := Compact(a) + rest;
    assert s[..|Compact(a)|] == Compact(a);
  }

  lemma WrittenLater(first: SocketAddr, s: bytes, k: nat, a: SocketAddr)
    requires WrittenAt(s, k, a) && first.V4? == a.V4?
    ensures WrittenAt(Compact(first) + s, k + 1, a)
  {
    var n := if a.V4? then 6 else 18;
    assert |Compact(first)| == n;
    hide Compact;
    assert (Compact(first) + s)[n + n * k..n + n * k + n] == s[n * k..n * k + n];
  }

  lemma Appended(first: SocketAddr, later: seq<SocketAddr>)
    ensures CompactV4s([first] + later) == if first.V4? then Compact(first) + CompactV4s(later) else CompactV4s(later)
    ensures CompactV6s([first] + later) == if first.V6? then Compact(first) + CompactV6s(later) else CompactV6s(later)
  {
    assert ([first] + later)[1..] == later;
    hide Compact;
  }

  /** Each address of an exchange is a group of the string of its kind. */
  lemma {:induction false} ExchangeIsWritten(order: seq<SocketAddr>, i: nat) returns (k: nat)
    requires i < |order|
    ensures WrittenAt(if order[i].V4? then CompactV4s(order) else CompactV6s(order), k, order[i])
    decreases |order|
  {
    hide *;
    var first, later := order[0], order[1..];
    assert order == [first] + later;
    Appended(first, later);
    if i == 0 {
      k := 0;
      WrittenFirst(first, if first.V4? then CompactV4s(later) else CompactV6s(later));
    } else {
      k := ExchangeIsWritten(later, i - 1);
      if first.V4? == order[i].V4? {
        WrittenLater(first, if first.V4? then CompactV4s(later) else CompactV6s(later), k, order[i]);
        k := k + 1;
      }
    }
  }

  /** And nothing else is. */
  lemma {:induction false} CompactLength(order: seq<SocketAddr>)
    ensures |CompactV4s(order)| == 6 * (|order| - SixCount(order))
    ensures |CompactV6s(order)| == 18 * SixCount(order)
  {
    if order != [] {
      CompactLength(order[1..]);
    }
  }

  function SixCount(order: seq<SocketAddr>): nat {
    if order == [] then 0 else (if order[0].V6? then 1 else 0) + SixCount(order[1..])
  }

  // ---- Bit fields ----

  /** A bit field has as many bytes as the pieces need, and no more. */
  lemma BitfieldLength(pieces: nat)
    ensures pieces <= 8 * Bitfields.BytesFor(pieces) < pieces + 8
  {
  }

  /** Piece `p` is the bit of value 128, 64, ..., 1 of its byte. */
  lemma BitIs(s: bytes, p: nat)
    ensures p in Bitfields.SetBits(s) <==>
      p < 8 * |s| && s[p / 8] / [128, 64, 32, 16, 8, 4, 2, 1][p % 8] % 2 == 1
  {
    if p < 8 * |s| {
      ByteBits(s[p / 8]);
    }
    hide Bitfields.BitsOf;
  }

  lemma ByteBits(b: byte)
    ensures Bitfields.BitsOf(b) == [b / 128 % 2 == 1, b / 64 % 2 == 1, b / 32 % 2 == 1, b / 16 % 2 == 1,
                                    b / 8 % 2 == 1, b / 4 % 2 == 1, b / 2 % 2 == 1, b % 2 == 1]
  {
    hide Bitfields.BinaryDigits;
    assert b / 4 / 4 == b / 16 && b / 16 / 4 == b / 64 && b / 4 / 2 == b / 8 && b / 16 / 2 == b / 32;
    LastDigits(b, 8);
    LastDigits(b / 4, 6);
    LastDigits(b / 16, 4);
    TwoDigits(b / 64);
    assert b / 64 / 2 == b / 128;
  }

  lemma TwoDigits(n: nat)
    ensures Bitfields.BinaryDigits(n, 2) == [n / 2 % 2 == 1, n % 2 == 1]
  {
    assert Bitfields.BinaryDigits(n / 2, 1) == Bitfields.BinaryDigits(n / 2 / 2, 0) + [n / 2 % 2 == 1];
  }

  lemma LastDigits(b: nat, n: nat)
    requires n >= 2
    ensures Bitfields.BinaryDigits(b, n) == Bitfields.BinaryDigits(b / 4, n - 2) + [b / 2 % 2 == 1, b % 2 == 1]
  {
    assert b / 2 / 2 == b / 4;
  }
}
