/** Peer wire messages (message.rs): encoders, decoders and exactly when one undoes the other. */
module Messages {
  import opened Wrappers
  import opened Bytes
  import opened Peers
  import Bencodes

  datatype Error = InvalidMessage | BencodeError(error: Bencodes.Error)

  /** BEP 10 handshake: the names are UTF-8 strings, held here as their bytes. */
  datatype ExtHandshake = ExtHandshake(extensions: map<bytes, byte>, metadataSize: Option<nat>)

  datatype Message =
    | KeepAlive
    | Choke
    | Unchoke
    | Interested
    | NotInterested
    | Have(piece: nat)
    | Bitfield(bits: bytes)
    | Request(range: BlockRange)
    | Piece(range: BlockRange, data: bytes)
    | Cancel(range: BlockRange)
    | ExtensionHandshake(handshake: ExtHandshake)
    | Extension(extId: byte, payload: bytes)
    | SuggestPiece(piece: nat)
    | HaveAll
    | HaveNone
    | RejectRequest(range: BlockRange)
    | AllowedFast(piece: nat)
    | Unimplemented
  {
    /** Part of the fast extension (BEP 6): a peer that did not negotiate it breaks the protocol with these. */
    predicate NeedsFast() {
      HaveAll? || HaveNone? || SuggestPiece? || RejectRequest? || AllowedFast?
    }

    predicate AffectsScheduling() {
      Unchoke? || AllowedFast? || Piece?
    }
  }

  const UT_METADATA_EXT_ID: byte := 1
  const UT_PEX_EXT_ID: byte := 2

  function Ascii(s: string): (r: bytes)
    requires forall i :: 0 <= i < |s| ==> s[i] < 128 as char
    ensures |r| == |s|
  {
    seq(|s|, i requires 0 <= i < |s| => s[i] as int)
  }

  const KEY_M := Ascii("m")
  const KEY_METADATA_SIZE := Ascii("metadata_size")
  const KEY_MSG_TYPE := Ascii("msg_type")
  const KEY_PIECE := Ascii("piece")
  const KEY_TOTAL_SIZE := Ascii("total_size")

  /** `x as i64` of a `usize`. */
  function AsI64(n: nat): (r: int)
    ensures I64_MIN <= r <= I64_MAX
  {
    var w := n % U64_LIMIT;
    if w <= I64_MAX then w else w - U64_LIMIT
  }

  /** `x as usize` of an `i64`. */
  function AsUsize(n: int): nat {
    n % U64_LIMIT
  }

  lemma CastRoundTrip(n: nat)
    requires n < U64_LIMIT
    ensures AsUsize(AsI64(n)) == n
  {
  }

  // ---- Extension handshake (BEP 10) ----

  function HandshakeFromBencode(utf8: bytes -> bool, v: Bencodes.Bencode): ExtHandshake {
    var extensions :=
      match Bencodes.Get(v, KEY_M)
      case Ok(Dict(m)) =>
        map name | name in m && utf8(name) && m[name].Int? && 0 <= m[name].n <= 255 :: m[name].n as byte
      case _ => map[];
    var metadataSize :=
      match Bencodes.GetInt(v, KEY_METADATA_SIZE)
      case Ok(n) => if n >= 0 then Some(n) else None
      case Err(_) => None;
    ExtHandshake(extensions, metadataSize)
  }

  function HandshakeToBencode(hs: ExtHandshake): Bencodes.Bencode {
    var m := Bencodes.Dict(map name | name in hs.extensions :: Bencodes.Int(hs.extensions[name]));
    match hs.metadataSize
    case None => Bencodes.Dict(map[KEY_M := m])
    case Some(size) => Bencodes.Dict(map[KEY_M := m, KEY_METADATA_SIZE := Bencodes.Int(AsI64(size))])
  }

  // ---- Messages ----

  function EncodeRange(range: BlockRange): (r: bytes)
    ensures |r| == 12
  {
    BeU32(range.pieceIndex) + BeU32(range.pieceOffset) + BeU32(range.len)
  }

  /** `[msg_id][data...]`, without the length prefix. */
  ghost function Encode(m: Message): bytes {
    match m
    case KeepAlive => []
    case Choke => [0]
    case Unchoke => [1]
    case Interested => [2]
    case NotInterested => [3]
    case Have(piece) => [4] + BeU32(piece)
    case Bitfield(bits) => [5] + bits
    case Request(range) => [6] + EncodeRange(range)
    case Piece(range, data) => [7] + (BeU32(range.pieceIndex) + BeU32(range.pieceOffset) + data)
    case Cancel(range) => [8] + EncodeRange(range)
    case ExtensionHandshake(hs) => [20] + ([0] + Bencodes.Encode(HandshakeToBencode(hs)))
    case Extension(extId, payload) => [20] + ([extId] + payload)
    case HaveAll => [14]
    case HaveNone => [15]
    case SuggestPiece(piece) => [13] + BeU32(piece)
    case RejectRequest(range) => [16] + EncodeRange(range)
    case AllowedFast(piece) => [17] + BeU32(piece)
    case Unimplemented => []
  }

  function ReadU32(payload: bytes, offset: nat): nat
    requires offset + 4 <= |payload|
  {
    FromBeU32(payload[offset..offset + 4])
  }

  function DecodeRange(payload: bytes): Result<BlockRange, Error> {
    if |payload| != 12 then Err(InvalidMessage)
    else Ok(BlockRange(ReadU32(payload, 0), ReadU32(payload, 4), ReadU32(payload, 8)))
  }

  function DecodePiece(payload: bytes): Result<nat, Error> {
    if |payload| != 4 then Err(InvalidMessage) else Ok(ReadU32(payload, 0))
  }

  function DecodeExtension(utf8: bytes -> bool, payload: bytes): Result<Message, Error> {
    if payload == [] then Err(InvalidMessage)
    else if payload[0] == 0 then
      match Bencodes.ParseValue(payload[1..])
      case Err(e) => Err(BencodeError(e))
      case Ok((v, _)) => Ok(ExtensionHandshake(HandshakeFromBencode(utf8, v)))
    else Ok(Extension(payload[0], payload[1..]))
  }

  /** `Message::decode`; `utf8` is the validity test of `str::from_utf8`. */
  function Decode(utf8: bytes -> bool, data: bytes): Result<Message, Error> {
    if data == [] then Ok(KeepAlive)
    else
      var payload := data[1..];
      match data[0]
      case 0 => Ok(Choke)
      case 1 => Ok(Unchoke)
      case 2 => Ok(Interested)
      case 3 => Ok(NotInterested)
      case 4 => (match DecodePiece(payload) case Ok(p) => Ok(Have(p)) case Err(e) => Err(e))
      case 5 => Ok(Bitfield(payload))
      case 6 => (match DecodeRange(payload) case Ok(r) => Ok(Request(r)) case Err(e) => Err(e))
      case 7 =>
        if |payload| < 8 then Err(InvalidMessage)
        else Ok(Piece(BlockRange(ReadU32(payload, 0), ReadU32(payload, 4), |payload| - 8), payload[8..]))
      case 8 => (match DecodeRange(payload) case Ok(r) => Ok(Cancel(r)) case Err(e) => Err(e))
      case 20 => DecodeExtension(utf8, payload)
      case 13 => (match DecodePiece(payload) case Ok(p) => Ok(SuggestPiece(p)) case Err(e) => Err(e))
      case 14 => if payload != [] then Err(InvalidMessage) else Ok(HaveAll)
      case 15 => if payload != [] then Err(InvalidMessage) else Ok(HaveNone)
      case 16 => (match DecodeRange(payload) case Ok(r) => Ok(RejectRequest(r)) case Err(e) => Err(e))
      case 17 => (match DecodePiece(payload) case Ok(p) => Ok(AllowedFast(p)) case Err(e) => Err(e))
      case _ => Ok(Unimplemented)
  }

  // ---- Round trip ----

  /** Bounds every Rust value has: slice lengths and sizes are `usize`. */
  ghost predicate Representable(m: Message) {
    m.ExtensionHandshake? ==>
      && (forall name :: name in m.handshake.extensions ==> |name| < U64_LIMIT)
      && (m.handshake.metadataSize.Some? ==> m.handshake.metadataSize.value < U64_LIMIT)
  }

  predicate RangeFits(range: BlockRange) {
    range.pieceIndex < U32_LIMIT && range.pieceOffset < U32_LIMIT && range.len < U32_LIMIT
  }

  ghost predicate HandshakeFits(utf8: bytes -> bool, hs: ExtHandshake) {
    && (forall name :: name in hs.extensions ==> utf8(name))
    && (hs.metadataSize.Some? ==> hs.metadataSize.value <= I64_MAX)
  }

  /** What a sender must respect for the remote end to read the same message. */
  ghost predicate Sendable(utf8: bytes -> bool, m: Message) {
    match m
    case Have(piece) => piece < U32_LIMIT
    case SuggestPiece(piece) => piece < U32_LIMIT
    case AllowedFast(piece) => piece < U32_LIMIT
    case Request(range) => RangeFits(range)
    case Cancel(range) => RangeFits(range)
    case RejectRequest(range) => RangeFits(range)
    case Piece(range, data) =>
      range.pieceIndex < U32_LIMIT && range.pieceOffset < U32_LIMIT && range.len == |data|
    case Extension(extId, _) => extId != 0
    case ExtensionHandshake(hs) => HandshakeFits(utf8, hs)
    case Unimplemented => false
    case _ => true
  }

  lemma ThreeFields(a: bytes, b: bytes, c: bytes)
    requires |a| == |b| == |c| == 4
    ensures (a + b + c)[0..4] == a && (a + b + c)[4..8] == b && (a + b + c)[8..12] == c
  {
  }

  lemma RangeRoundTrip(range: BlockRange)
    ensures DecodeRange(EncodeRange(range))
         == Ok(BlockRange(range.pieceIndex % U32_LIMIT, range.pieceOffset % U32_LIMIT, range.len % U32_LIMIT))
  {
    var s := EncodeRange(range);
    BeU32RoundTrip(range.pieceIndex);
    BeU32RoundTrip(range.pieceOffset);
    BeU32RoundTrip(range.len);
    ThreeFields(BeU32(range.pieceIndex), BeU32(range.pieceOffset), BeU32(range.len));
  }

  lemma PieceRoundTrip(piece: nat)
    ensures DecodePiece(BeU32(piece)) == Ok(piece % U32_LIMIT)
  {
    BeU32RoundTrip(piece);
    assert BeU32(piece)[0..4] == BeU32(piece);
  }

  lemma HandshakeWellFormed(hs: ExtHandshake)
    requires Representable(ExtensionHandshake(hs))
    ensures Bencodes.WellFormed(HandshakeToBencode(hs))
  {
  }

  /** A handshake read back loses exactly the names that are not UTF-8 and sizes beyond `i64`. */
  lemma HandshakeRoundTrip(utf8: bytes -> bool, hs: ExtHandshake)
    requires Representable(ExtensionHandshake(hs))
    ensures HandshakeFromBencode(utf8, HandshakeToBencode(hs)) == hs <==> HandshakeFits(utf8, hs)
  {
    var v := HandshakeToBencode(hs);
    var back := HandshakeFromBencode(utf8, v);
    assert back.extensions == map name | name in hs.extensions && utf8(name) :: hs.extensions[name];
    assert back.extensions == hs.extensions <==> forall name :: name in hs.extensions ==> utf8(name);
    assert back.metadataSize == hs.metadataSize
      <==> (hs.metadataSize.Some? ==> hs.metadataSize.value <= I64_MAX);
  }

  lemma PieceMessageRoundTrip(range: BlockRange, data: bytes)
    ensures var payload := BeU32(range.pieceIndex) + BeU32(range.pieceOffset) + data;
      |payload| == 8 + |data| && payload[8..] == data
      && ReadU32(payload, 0) == range.pieceIndex % U32_LIMIT && ReadU32(payload, 4) == range.pieceOffset % U32_LIMIT
  {
    var payload := BeU32(range.pieceIndex) + BeU32(range.pieceOffset) + data;
    BeU32RoundTrip(range.pieceIndex);
    BeU32RoundTrip(range.pieceOffset);
    assert payload[0..4] == BeU32(range.pieceIndex) && payload[4..8] == BeU32(range.pieceOffset);
  }

  lemma ExtensionHandshakeRoundTrip(utf8: bytes -> bool, hs: ExtHandshake)
    requires Representable(ExtensionHandshake(hs))
    ensures DecodeExtension(utf8, [0] + Bencodes.Encode(HandshakeToBencode(hs)))
         == Ok(ExtensionHandshake(HandshakeFromBencode(utf8, HandshakeToBencode(hs))))
  {
    var v := HandshakeToBencode(hs);
    HandshakeWellFormed(hs);
    Bencodes.PrintThenParse(v, []);
    assert ([0] + Bencodes.Encode(v))[1..] == Bencodes.Encode(v) + [];
  }

  ghost predicate RoundTrips(utf8: bytes -> bool, m: Message) {
    Decode(utf8, Encode(m)) == Ok(m)
  }

  lemma PieceNumberDecodes(utf8: bytes -> bool, data: bytes)
    requires data != [] && data[0] in {4, 13, 17} && DecodePiece(data[1..]).Ok?
    ensures var p := DecodePiece(data[1..]).value;
      Decode(utf8, data)
          == Ok(if data[0] == 4 then Have(p) else if data[0] == 13 then SuggestPiece(p) else AllowedFast(p))
  {
  }

  lemma PieceNumberIff(utf8: bytes -> bool, m: Message)
    requires m.Have? || m.SuggestPiece? || m.AllowedFast?
    ensures RoundTrips(utf8, m) <==> Sendable(utf8, m)
  {
    PieceRoundTrip(m.piece);
    var data := Encode(m);
    assert data[1..] == BeU32(m.piece);
    PieceNumberDecodes(utf8, data);
    assert Sendable(utf8, m) <==> DecodePiece(data[1..]).value == m.piece;
  }

  lemma RangeDecodes(utf8: bytes -> bool, id: byte, fields: bytes)
    requires id in {6, 8, 16} && |fields| == 12
    ensures DecodeRange(fields).Ok?
    ensures var r := DecodeRange(fields).value;
      Decode(utf8, [id] + fields)
        == Ok(if id == 6 then Request(r) else if id == 8 then Cancel(r) else RejectRequest(r))
  {
    assert ([id] + fields)[1..] == fields;
    hide ReadU32;
  }

  lemma RequestIff(utf8: bytes -> bool, range: BlockRange)
    ensures RoundTrips(utf8, Request(range)) <==> RangeFits(range)
  {
    hide Decode, DecodeRange, EncodeRange;
    RangeRoundTrip(range);
    RangeDecodes(utf8, 6, EncodeRange(range));
  }

  lemma CancelIff(utf8: bytes -> bool, range: BlockRange)
    ensures RoundTrips(utf8, Cancel(range)) <==> RangeFits(range)
  {
    hide Decode, DecodeRange, EncodeRange;
    RangeRoundTrip(range);
    RangeDecodes(utf8, 8, EncodeRange(range));
  }

  lemma RejectRequestIff(utf8: bytes -> bool, range: BlockRange)
    ensures RoundTrips(utf8, RejectRequest(range)) <==> RangeFits(range)
  {
    hide Decode, DecodeRange, EncodeRange;
    RangeRoundTrip(range);
    RangeDecodes(utf8, 16, EncodeRange(range));
  }

  lemma PieceIff(utf8: bytes -> bool, m: Message)
    requires m.Piece?
    ensures RoundTrips(utf8, m) <==> Sendable(utf8, m)
  {
    PieceMessageRoundTrip(m.range, m.data);
    assert Encode(m)[1..] == BeU32(m.range.pieceIndex) + BeU32(m.range.pieceOffset) + m.data;
  }

  lemma ExtensionIff(utf8: bytes -> bool, m: Message)
    requires Representable(m) && (m.ExtensionHandshake? || m.Extension?)
    ensures RoundTrips(utf8, m) <==> Sendable(utf8, m)
  {
    if m.ExtensionHandshake? {
      ExtensionHandshakeRoundTrip(utf8, m.handshake);
      HandshakeRoundTrip(utf8, m.handshake);
      assert Encode(m)[1..] == [0] + Bencodes.Encode(HandshakeToBencode(m.handshake));
    } else {
      assert Encode(m)[1..] == [m.extId] + m.payload && ([m.extId] + m.payload)[1..] == m.payload;
    }
  }

  /** Decoding undoes encoding exactly on the sendable messages. */
  lemma DecodeUndoesEncodeIff(utf8: bytes -> bool, m: Message)
    requires Representable(m)
    ensures Decode(utf8, Encode(m)) == Ok(m) <==> Sendable(utf8, m)
  {
    match m
    case Have(_) => PieceNumberIff(utf8, m);
    case SuggestPiece(_) => PieceNumberIff(utf8, m);
    case AllowedFast(_) => PieceNumberIff(utf8, m);
    case Request(range) => RequestIff(utf8, range);
    case Cancel(range) => CancelIff(utf8, range);
    case RejectRequest(range) => RejectRequestIff(utf8, range);
    case Piece(_, _) => PieceIff(utf8, m);
    case ExtensionHandshake(_) => ExtensionIff(utf8, m);
    case Extension(_, _) => ExtensionIff(utf8, m);
    case Bitfield(bits) => assert Encode(m)[1..] == bits;
    case _ =>
  }

  lemma RangeInverse(payload: bytes)
    requires |payload| == 12
    ensures EncodeRange(DecodeRange(payload).value) == payload
  {
    BeU32Inverse(payload[0..4]);
    BeU32Inverse(payload[4..8]);
    BeU32Inverse(payload[8..12]);
    assert payload == payload[0..4] + payload[4..8] + payload[8..12];
  }

  lemma PieceMessageInverse(payload: bytes)
    requires |payload| >= 8
    ensures BeU32(ReadU32(payload, 0)) + BeU32(ReadU32(payload, 4)) + payload[8..] == payload
  {
    BeU32Inverse(payload[0..4]);
    BeU32Inverse(payload[4..8]);
    assert payload == payload[0..4] + payload[4..8] + payload[8..];
  }

  ghost predicate Reencodes(utf8: bytes -> bool, data: bytes) {
    Decode(utf8, data).Ok? ==> Encode(Decode(utf8, data).value) == data
  }

  lemma PieceNumberReencodes(utf8: bytes -> bool, data: bytes)
    requires data != [] && data[0] in {4, 13, 17}
    ensures Reencodes(utf8, data)
  {
    assert data == [data[0]] + data[1..];
    if |data| == 5 {
      BeU32Inverse(data[1..]);
      assert data[1..][0..4] == data[1..];
    }
  }

  lemma RangeReencodes(utf8: bytes -> bool, data: bytes)
    requires data != [] && data[0] in {6, 8, 16}
    ensures Reencodes(utf8, data)
  {
    assert data == [data[0]] + data[1..];
    if |data| == 13 {
      RangeInverse(data[1..]);
    }
  }

  lemma PieceReencodes(utf8: bytes -> bool, data: bytes)
    requires data != [] && data[0] == 7
    ensures Reencodes(utf8, data)
  {
    assert data == [data[0]] + data[1..];
    if |data| >= 9 {
      PieceMessageInverse(data[1..]);
    }
  }

  lemma OtherReencodes(utf8: bytes -> bool, data: bytes)
    requires data != [] && data[0] in {5, 14, 15, 20}
    requires Decode(utf8, data).Ok? && !Decode(utf8, data).value.ExtensionHandshake?
    ensures Reencodes(utf8, data)
  {
    assert data == [data[0]] + data[1..];
    if data[0] == 20 {
      assert data[1..] == [data[1]] + data[1..][1..];
    }
  }

  // ---- Handshakes that re-encode ----

  /** A dictionary with nothing in it that the handshake record does not hold. */
  ghost predicate PlainHandshake(utf8: bytes -> bool, v: Bencodes.Bencode) {
    && v.Dict? && KEY_M in v.entries && v.entries.Keys <= {KEY_M, KEY_METADATA_SIZE}
    && v.entries[KEY_M].Dict?
    && (var m := v.entries[KEY_M].entries;
        forall name :: name in m ==> utf8(name) && m[name].Int? && 0 <= m[name].n <= 255)
    && (KEY_METADATA_SIZE in v.entries ==> v.entries[KEY_METADATA_SIZE].Int? && v.entries[KEY_METADATA_SIZE].n >= 0)
  }

  lemma KeysDiffer()
    ensures KEY_M != KEY_METADATA_SIZE
  {
    assert |KEY_M| != |KEY_METADATA_SIZE|;
  }

  /** The record holds the whole dictionary exactly when it is plain. */
  lemma PlainIff(utf8: bytes -> bool, v: Bencodes.Bencode)
    requires Bencodes.WellFormed(v)
    ensures HandshakeToBencode(HandshakeFromBencode(utf8, v)) == v <==> PlainHandshake(utf8, v)
  {
    KeysDiffer();
    hide Ascii;
    var w := HandshakeToBencode(HandshakeFromBencode(utf8, v));
    if PlainHandshake(utf8, v) {
      PlainIsHeld(utf8, v);
    }
    if w == v {
      HeldIsPlain(utf8, v);
    }
  }

  lemma PlainNamesHeld(utf8: bytes -> bool, v: Bencodes.Bencode)
    requires PlainHandshake(utf8, v)
    ensures var hs := HandshakeFromBencode(utf8, v);
      (map name | name in hs.extensions :: Bencodes.Int(hs.extensions[name])) == v.entries[KEY_M].entries
  {
    hide Ascii;
  }

  lemma PlainSizeHeld(utf8: bytes -> bool, v: Bencodes.Bencode)
    requires Bencodes.WellFormed(v) && PlainHandshake(utf8, v)
    ensures var hs := HandshakeFromBencode(utf8, v);
      if KEY_METADATA_SIZE !in v.entries then hs.metadataSize == None
      else hs.metadataSize.Some? && v.entries[KEY_METADATA_SIZE] == Bencodes.Int(AsI64(hs.metadataSize.value))
  {
    hide Ascii;
    if KEY_METADATA_SIZE in v.entries {
      assert Bencodes.WellFormed(v.entries[KEY_METADATA_SIZE]);
    }
  }

  lemma PlainIsHeld(utf8: bytes -> bool, v: Bencodes.Bencode)
    requires Bencodes.WellFormed(v) && PlainHandshake(utf8, v)
    ensures HandshakeToBencode(HandshakeFromBencode(utf8, v)) == v
  {
    KeysDiffer();
    PlainNamesHeld(utf8, v);
    PlainSizeHeld(utf8, v);
    hide Ascii, HandshakeFromBencode, Bencodes.WellFormed, AsI64;
    var m := v.entries[KEY_M].entries;
    if KEY_METADATA_SIZE in v.entries {
      assert v.entries == map[KEY_M := Bencodes.Dict(m), KEY_METADATA_SIZE := v.entries[KEY_METADATA_SIZE]];
    } else {
      assert v.entries == map[KEY_M := Bencodes.Dict(m)];
    }
  }

  lemma HeldIsPlain(utf8: bytes -> bool, v: Bencodes.Bencode)
    requires HandshakeToBencode(HandshakeFromBencode(utf8, v)) == v
    ensures PlainHandshake(utf8, v)
  {
    KeysDiffer();
    hide Ascii;
    var hs := HandshakeFromBencode(utf8, v);
    assert v.Dict? && KEY_M in v.entries;
    assert v.entries[KEY_M] == Bencodes.Dict(map name | name in hs.extensions :: Bencodes.Int(hs.extensions[name]));
  }

  lemma HeldWellFormed(utf8: bytes -> bool, v: Bencodes.Bencode)
    requires Bencodes.WellFormed(v)
    ensures Bencodes.WellFormed(HandshakeToBencode(HandshakeFromBencode(utf8, v)))
  {
    hide Ascii;
    HandshakeWellFormed(HandshakeFromBencode(utf8, v));
  }

  /** What is left out of the record, written in another form or trailing, is lost; nothing else is. */
  lemma HandshakeReencodesIff(utf8: bytes -> bool, payload: bytes)
    requires Bencodes.ParseValue(payload).Ok?
    ensures var v := Bencodes.ParseValue(payload).value.0;
      Bencodes.Encode(HandshakeToBencode(HandshakeFromBencode(utf8, v))) == payload
      <==> Bencodes.Canonical(payload) == Some([]) && PlainHandshake(utf8, v)
  {
    var (v, rest) := Bencodes.ParseValue(payload).value;
    var w := HandshakeToBencode(HandshakeFromBencode(utf8, v));
    Bencodes.ParsedIsWellFormed(payload);
    PlainIff(utf8, v);
    HeldWellFormed(utf8, v);
    hide HandshakeFromBencode, HandshakeToBencode, PlainHandshake, Bencodes.WellFormed, Bencodes.Canonical,
      Bencodes.ParseValue;
    Bencodes.ReencodesIffCanonical(payload);
    if Bencodes.Encode(w) == payload {
      Bencodes.PrintThenParse(w, []);
      assert Bencodes.Encode(w) + [] == payload;
    }
    if Bencodes.Canonical(payload) == Some([]) {
      var v' := Bencodes.CanonicalReads(payload);
      assert Bencodes.Encode(v) + [] == Bencodes.Encode(v);
    }
  }

  /** The received bytes spell a message in the one form the encoder writes. */
  ghost predicate Ordinary(utf8: bytes -> bool, data: bytes)
    requires Decode(utf8, data).Ok?
  {
    match Decode(utf8, data).value
    case Unimplemented => false
    case Choke => |data| == 1
    case Unchoke => |data| == 1
    case Interested => |data| == 1
    case NotInterested => |data| == 1
    case ExtensionHandshake(_) =>
      && Bencodes.Canonical(data[2..]) == Some([])
      && PlainHandshake(utf8, Bencodes.ParseValue(data[2..]).value.0)
    case _ => true
  }

  lemma ReceivedHandshake(utf8: bytes -> bool, data: bytes)
    requires Decode(utf8, data).Ok? && Decode(utf8, data).value.ExtensionHandshake?
    ensures |data| >= 2 && data[0] == 20 && data[1] == 0 && data == [20] + ([0] + data[2..])
    ensures Bencodes.ParseValue(data[2..]).Ok?
    ensures Decode(utf8, data).value.handshake == HandshakeFromBencode(utf8, Bencodes.ParseValue(data[2..]).value.0)
  {
    assert data[1..][1..] == data[2..];
  }

  /**
   * The other way round: what was received is what encoding would send, except for unknown ids, the four one-byte
   * messages with trailing bytes, and extension handshakes that are not canonical or contain more than the record.
   */
  lemma EncodeUndoesDecodeIff(utf8: bytes -> bool, data: bytes)
    requires Decode(utf8, data).Ok?
    ensures Reencodes(utf8, data) <==> Ordinary(utf8, data)
  {
    if Decode(utf8, data).value.ExtensionHandshake? {
      ReceivedHandshake(utf8, data);
      HandshakeReencodesIff(utf8, data[2..]);
      HandshakeParts(utf8, data);
    } else {
      PlainMessageReencodesIff(utf8, data);
    }
  }

  lemma HandshakeParts(utf8: bytes -> bool, data: bytes)
    requires Decode(utf8, data).Ok? && Decode(utf8, data).value.ExtensionHandshake? && |data| >= 2
    requires data == [20] + ([0] + data[2..])
    ensures var hs := Decode(utf8, data).value.handshake;
      Reencodes(utf8, data) <==> Bencodes.Encode(HandshakeToBencode(hs)) == data[2..]
  {
    var e := Bencodes.Encode(HandshakeToBencode(Decode(utf8, data).value.handshake));
    hide Decode, HandshakeToBencode;
    if [20] + ([0] + e) == data {
      assert ([20] + ([0] + e))[2..] == e;
    }
  }

  lemma PlainMessageReencodesIff(utf8: bytes -> bool, data: bytes)
    requires Decode(utf8, data).Ok? && !Decode(utf8, data).value.ExtensionHandshake?
    ensures Reencodes(utf8, data) <==> Ordinary(utf8, data)
  {
    if data == [] || data[0] <= 3 {
    } else if data[0] in {4, 13, 17} {
      PieceNumberReencodes(utf8, data);
    } else if data[0] in {6, 8, 16} {
      RangeReencodes(utf8, data);
    } else if data[0] == 7 {
      PieceReencodes(utf8, data);
    } else if data[0] in {5, 14, 15, 20} {
      OtherReencodes(utf8, data);
    } else {
      assert Decode(utf8, data) == Ok(Unimplemented);
    }
  }
}
