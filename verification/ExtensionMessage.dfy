/** BEP 9 metadata messages and BEP 11 peer exchange (message.rs). */
module ExtensionMessages {
  import opened Wrappers
  import opened Bytes
  import opened Listings
  import opened Peers
  import opened Messages
  import Bencodes
  import BencodeDecoder

  // ---- ut_metadata ----

  datatype UtMetadata =
    | MetadataRequest(piece: nat)
    | MetadataData(piece: nat, totalSize: nat, data: bytes)
    | MetadataReject(piece: nat)
    | MetadataUnimplemented

  function DecodeUtMetadata(payload: bytes): Result<UtMetadata, Error> {
    match Bencodes.ParseValue(payload)
    case Err(e) => Err(BencodeError(e))
    case Ok((dict, rest)) =>
      match Bencodes.GetInt(dict, KEY_MSG_TYPE)
      case Err(e) => Err(BencodeError(e))
      case Ok(msgType) =>
        match Bencodes.GetInt(dict, KEY_PIECE)
        case Err(e) => Err(BencodeError(e))
        case Ok(piece) =>
          if msgType == 0 then Ok(MetadataRequest(AsUsize(piece)))
          else if msgType == 1 then
            match Bencodes.GetInt(dict, KEY_TOTAL_SIZE)
            case Err(e) => Err(BencodeError(e))
            case Ok(size) => Ok(MetadataData(AsUsize(piece), AsUsize(size), rest))
          else if msgType == 2 then Ok(MetadataReject(AsUsize(piece)))
          else Ok(MetadataUnimplemented)
  }

  function UtMetadataDict(m: UtMetadata): Bencodes.Bencode
    requires !m.MetadataUnimplemented?
  {
    match m
    case MetadataRequest(piece) =>
      Bencodes.Dict(map[KEY_MSG_TYPE := Bencodes.Int(0), KEY_PIECE := Bencodes.Int(AsI64(piece))])
    case MetadataData(piece, size, _) =>
      Bencodes.Dict(map[KEY_MSG_TYPE := Bencodes.Int(1), KEY_PIECE := Bencodes.Int(AsI64(piece)),
                        KEY_TOTAL_SIZE := Bencodes.Int(AsI64(size))])
    case MetadataReject(piece) =>
      Bencodes.Dict(map[KEY_MSG_TYPE := Bencodes.Int(2), KEY_PIECE := Bencodes.Int(AsI64(piece))])
  }

  ghost function EncodeUtMetadata(m: UtMetadata): bytes {
    if m.MetadataUnimplemented? then []
    else Bencodes.Encode(UtMetadataDict(m)) + (if m.MetadataData? then m.data else [])
  }

  /** Piece numbers and sizes are `usize` values. */
  predicate UsizeFields(m: UtMetadata) {
    match m
    case MetadataRequest(piece) => piece < U64_LIMIT
    case MetadataData(piece, size, _) => piece < U64_LIMIT && size < U64_LIMIT
    case MetadataReject(piece) => piece < U64_LIMIT
    case MetadataUnimplemented => true
  }

  /**
   * Every metadata message survives the wire, for the whole `usize` range: the casts through `i64`
   * undo each other. Only the placeholder message, which has no encoding, does not.
   */
  lemma UtMetadataRoundTripIff(m: UtMetadata)
    requires UsizeFields(m)
    ensures DecodeUtMetadata(EncodeUtMetadata(m)) == Ok(m) <==> !m.MetadataUnimplemented?
  {
    if !m.MetadataUnimplemented? {
      var dict := UtMetadataDict(m);
      Bencodes.PrintThenParse(dict, if m.MetadataData? then m.data else []);
      CastRoundTrip(m.piece);
      if m.MetadataData? {
        CastRoundTrip(m.totalSize);
      }
    }
  }

  // ---- ut_pex ----

  const KEY_ADDED := Ascii("added")
  const KEY_ADDED6 := Ascii("added6")
  const KEY_DROPPED := Ascii("dropped")
  const KEY_DROPPED6 := Ascii("dropped6")

  lemma PexKeysDiffer()
    ensures |{KEY_ADDED, KEY_ADDED6, KEY_DROPPED, KEY_DROPPED6}| == 4
    ensures KEY_ADDED != KEY_ADDED6 && KEY_ADDED != KEY_DROPPED && KEY_ADDED != KEY_DROPPED6
    ensures KEY_ADDED6 != KEY_DROPPED && KEY_ADDED6 != KEY_DROPPED6 && KEY_DROPPED != KEY_DROPPED6
  {
  }

  function CompactV4(s: bytes): SocketAddr
    requires |s| == 6
  {
    V4(s[0], s[1], s[2], s[3], FromBeU16(s[4..6]))
  }

  function ParseV4(s: bytes): seq<SocketAddr>
    requires |s| % 6 == 0
  {
    if s == [] then [] else [CompactV4(s[..6])] + ParseV4(s[6..])
  }

  function ParseV6(s: bytes): seq<SocketAddr>
    requires |s| % 18 == 0
  {
    if s == [] then [] else [V6(s[..16], FromBeU16(s[16..18]))] + ParseV6(s[18..])
  }

  /** `parse_socket_addrs`, in the order the source tests the two lengths. */
  function ParseSocketAddrs(s: bytes): Result<seq<SocketAddr>, Error> {
    if |s| % 6 == 0 then Ok(ParseV4(s))
    else if |s| % 18 == 0 then Ok(ParseV6(s))
    else Err(InvalidMessage)
  }

  lemma {:induction false} ParseV4OnlyV4(s: bytes)
    requires |s| % 6 == 0
    ensures forall a :: a in ParseV4(s) ==> a.V4?
  {
    if s != [] {
      ParseV4OnlyV4(s[6..]);
    }
  }

  /** The IPv6 branch cannot be reached: no input is ever decoded to an IPv6 address. */
  lemma NoV6Decoded(s: bytes)
    requires ParseSocketAddrs(s).Ok?
    ensures |s| % 6 == 0 && forall a :: a in ParseSocketAddrs(s).value ==> a.V4?
  {
    ParseV4OnlyV4(s);
  }

  type Entries = map<bytes, Bencodes.Bencode>

  ghost predicate HasField(d: Entries, key: bytes) {
    key in d && d[key].Bytes?
  }

  ghost function FieldAddrs(d: Entries, key: bytes): set<SocketAddr> {
    if HasField(d, key) && ParseSocketAddrs(d[key].data).Ok? then
      set a | a in ParseSocketAddrs(d[key].data).value
    else {}
  }

  ghost predicate FieldBroken(d: Entries, key: bytes) {
    HasField(d, key) && ParseSocketAddrs(d[key].data).Err?
  }

  ghost function DecodePexDict(d: Entries): Result<set<SocketAddr>, Error> {
    if || FieldBroken(d, KEY_ADDED) || FieldBroken(d, KEY_ADDED6)
       || FieldBroken(d, KEY_DROPPED) || FieldBroken(d, KEY_DROPPED6) then
      Err(InvalidMessage)
    else if && !HasField(d, KEY_ADDED) && !HasField(d, KEY_ADDED6)
            && !HasField(d, KEY_DROPPED) && !HasField(d, KEY_DROPPED6) then
      Err(InvalidMessage)
    else
      Ok(FieldAddrs(d, KEY_ADDED) + FieldAddrs(d, KEY_ADDED6)
         - (FieldAddrs(d, KEY_DROPPED) + FieldAddrs(d, KEY_DROPPED6)))
  }

  /** `UtPexMessage::decode`. */
  ghost function DecodePex(payload: bytes): Result<set<SocketAddr>, Error> {
    match Bencodes.ParseValue(payload)
    case Err(e) => Err(BencodeError(e))
    case Ok((Dict(d), _)) => DecodePexDict(d)
    case Ok(_) => Err(InvalidMessage)
  }

  /** No exchange message ever reports an IPv6 peer. */
  lemma PexNeverReportsV6(payload: bytes)
    requires DecodePex(payload).Ok?
    ensures forall a :: a in DecodePex(payload).value ==> a.V4?
  {
    var d := Bencodes.ParseValue(payload).value.0.entries;
    if HasField(d, KEY_ADDED) { NoV6Decoded(d[KEY_ADDED].data); }
    if HasField(d, KEY_ADDED6) { NoV6Decoded(d[KEY_ADDED6].data); }
  }

  function Compact(a: SocketAddr): bytes {
    match a
    case V4(x, y, z, w, port) => [x, y, z, w] + BeU16(port)
    case V6(octets, port) => octets + BeU16(port)
  }

  function OnlyV4(a: SocketAddr): bytes {
    if a.V4? then Compact(a) else []
  }

  function OnlyV6(a: SocketAddr): bytes {
    if a.V6? then Compact(a) else []
  }

  function CompactV4s(order: seq<SocketAddr>): bytes {
    if order == [] then [] else OnlyV4(order[0]) + CompactV4s(order[1..])
  }

  function CompactV6s(order: seq<SocketAddr>): bytes {
    if order == [] then [] else OnlyV6(order[0]) + CompactV6s(order[1..])
  }

  function PexDict(added: bytes, added6: bytes): Bencodes.Bencode {
    var d: Entries := if added != [] then map[KEY_ADDED := Bencodes.Bytes(added)] else map[];
    Bencodes.Dict(if added6 != [] then d[KEY_ADDED6 := Bencodes.Bytes(added6)] else d)
  }

  /** The encoding when the hash set is iterated in `order`. */
  ghost function EncodePex(order: seq<SocketAddr>): bytes {
    Bencodes.Encode(PexDict(CompactV4s(order), CompactV6s(order)))
  }

  ghost predicate IsPexEncoding(payload: bytes, addrs: set<SocketAddr>) {
    exists order :: Listing(order, addrs) && payload == EncodePex(order)
  }

  lemma {:induction false} ParseCompacted(order: seq<SocketAddr>)
    requires forall a :: a in order ==> a.V4?
    ensures |CompactV4s(order)| == 6 * |order| && ParseV4(CompactV4s(order)) == order
    ensures CompactV6s(order) == []
  {
    if order != [] {
      ParseCompacted(order[1..]);
      var s := CompactV4s(order);
      BeU16RoundTrip(order[0].port);
      assert s[..6] == Compact(order[0]) && s[6..] == CompactV4s(order[1..]);
      assert s[..6][4..6] == BeU16(order[0].port);
    }
  }

  lemma PexDictRoundTrip(added: bytes, added6: bytes)
    requires |added| < U64_LIMIT && |added6| < U64_LIMIT
    ensures DecodePex(Bencodes.Encode(PexDict(added, added6))) == DecodePexDict(PexDict(added, added6).entries)
  {
    var v := PexDict(added, added6);
    Bencodes.PrintThenParse(v, []);
    assert Bencodes.Encode(v) + [] == Bencodes.Encode(v);
  }

  /**
   * Peer exchange carries a set of peers faithfully exactly when the set is not empty and holds no
   * IPv6 address: the empty set is encoded without any field, which the decoder rejects, and
   * `added6` is read back six bytes at a time.
   */
  lemma PexRoundTripIff(order: seq<SocketAddr>, addrs: set<SocketAddr>)
    requires Listing(order, addrs)
    requires |CompactV4s(order)| < U64_LIMIT && |CompactV6s(order)| < U64_LIMIT
    ensures DecodePex(EncodePex(order)) == Ok(addrs) <==> addrs != {} && forall a :: a in addrs ==> a.V4?
  {
    if DecodePex(EncodePex(order)).Ok? {
      PexNeverReportsV6(EncodePex(order));
    }
    if addrs == {} {
      EmptyPexRejected(order);
    } else if forall a :: a in addrs ==> a.V4? {
      V4PexRoundTrip(order, addrs);
    }
  }

  lemma EmptyPexRejected(order: seq<SocketAddr>)
    requires Listing(order, {})
    ensures DecodePex(EncodePex(order)).Err?
  {
    assert forall i :: 0 <= i < |order| ==> order[i] in order;
    PexDictRoundTrip([], []);
  }

  lemma V4PexRoundTrip(order: seq<SocketAddr>, addrs: set<SocketAddr>)
    requires Listing(order, addrs) && addrs != {} && |CompactV4s(order)| < U64_LIMIT
    requires forall a :: a in addrs ==> a.V4?
    ensures DecodePex(EncodePex(order)) == Ok(addrs)
  {
    hide *;
    V4Payload(order, addrs);
    PexDictRoundTrip(CompactV4s(order), []);
    AddedOnly(CompactV4s(order));
    EncodePexAs(order);
  }

  lemma V4Payload(order: seq<SocketAddr>, addrs: set<SocketAddr>)
    requires Listing(order, addrs) && addrs != {} && forall a :: a in addrs ==> a.V4?
    ensures CompactV6s(order) == [] && CompactV4s(order) != [] && |CompactV4s(order)| % 6 == 0
    ensures (set a | a in ParseV4(CompactV4s(order))) == addrs
  {
    ParseCompacted(order);
    hide CompactV4s, CompactV6s, ParseV4;
    SameElements(order, addrs);
  }

  lemma SameElements(order: seq<SocketAddr>, addrs: set<SocketAddr>)
    requires Listing(order, addrs)
    ensures (set a | a in order) == addrs && (addrs != {} ==> order != [])
  {
  }

  lemma EncodePexAs(order: seq<SocketAddr>)
    ensures EncodePex(order) == Bencodes.Encode(PexDict(CompactV4s(order), CompactV6s(order)))
  {
  }

  lemma FieldPresent(d: Entries, key: bytes)
    requires HasField(d, key) && |d[key].data| % 6 == 0
    ensures !FieldBroken(d, key) && FieldAddrs(d, key) == set a | a in ParseV4(d[key].data)
  {
  }

  lemma FieldAbsent(d: Entries, key: bytes)
    requires key !in d
    ensures !HasField(d, key) && !FieldBroken(d, key) && FieldAddrs(d, key) == {}
  {
  }

  lemma OnlyAddedField(d: Entries)
    requires HasField(d, KEY_ADDED) && |d[KEY_ADDED].data| % 6 == 0
    requires KEY_ADDED6 !in d && KEY_DROPPED !in d && KEY_DROPPED6 !in d
    ensures DecodePexDict(d) == Ok(FieldAddrs(d, KEY_ADDED))
  {
    FieldPresent(d, KEY_ADDED);
    FieldAbsent(d, KEY_ADDED6);
    FieldAbsent(d, KEY_DROPPED);
    FieldAbsent(d, KEY_DROPPED6);
    assert FieldAddrs(d, KEY_ADDED) + {} - ({} + {}) == FieldAddrs(d, KEY_ADDED);
  }

  lemma AddedOnly(added: bytes)
    requires added != [] && |added| % 6 == 0
    ensures DecodePexDict(PexDict(added, []).entries) == Ok(set a | a in ParseV4(added))
  {
    PexKeysDiffer();
    var d := PexDict(added, []).entries;
    assert d == map[KEY_ADDED := Bencodes.Bytes(added)];
    OnlyAddedField(d);
    FieldPresent(d, KEY_ADDED);
  }

  lemma {:induction false} CompactAppend(order: seq<SocketAddr>, a: SocketAddr)
    ensures CompactV4s(order + [a]) == CompactV4s(order) + OnlyV4(a)
    ensures CompactV6s(order + [a]) == CompactV6s(order) + OnlyV6(a)
  {
    if order == [] {
      assert (order + [a])[1..] == [];
    } else {
      assert (order + [a])[1..] == order[1..] + [a];
      CompactAppend(order[1..], a);
      Reassociate(OnlyV4(order[0]), CompactV4s(order[1..]), OnlyV4(a));
      Reassociate(OnlyV6(order[0]), CompactV6s(order[1..]), OnlyV6(a));
    }
  }

  /** `UtPexMessage::encode`: the loop over the set, in whatever order it yields. */
  method EncodePexMessage(addrs: set<SocketAddr>) returns (payload: bytes)
    ensures IsPexEncoding(payload, addrs)
  {
    var added: bytes, added6: bytes := [], [];
    var left := addrs;
    ghost var order: seq<SocketAddr> := [];
    hide Compact;
    while left != {}
      invariant left <= addrs && Listing(order, addrs - left)
      invariant added == CompactV4s(order) && added6 == CompactV6s(order)
      decreases |left|
    {
      var a :| a in left;
      match a {
        case V4(_, _, _, _, _) => added := added + Compact(a);
        case V6(_, _) => added6 := added6 + Compact(a);
      }
      CompactAppend(order, a);
      ListingMore(order, addrs - left, a);
      assert addrs - (left - {a}) == addrs - left + {a};
      left, order := left - {a}, order + [a];
    }
    var buf := new Bencodes.Buffer();
    Bencodes.EncodeInto(PexDict(added, added6), buf);
    payload := buf.data;
    assert [] + EncodePex(order) == EncodePex(order);
    assert Listing(order, addrs);
  }

  predicate IsAddedKey(key: bytes) { key == KEY_ADDED || key == KEY_ADDED6 }

  predicate IsDroppedKey(key: bytes) { key == KEY_DROPPED || key == KEY_DROPPED6 }

  ghost function AddrsAmong(d: Entries, done: set<bytes>, key: bytes): set<SocketAddr> {
    if key in done then FieldAddrs(d, key) else {}
  }

  ghost function AddedAmong(d: Entries, done: set<bytes>): set<SocketAddr> {
    AddrsAmong(d, done, KEY_ADDED) + AddrsAmong(d, done, KEY_ADDED6)
  }

  ghost function DroppedAmong(d: Entries, done: set<bytes>): set<SocketAddr> {
    AddrsAmong(d, done, KEY_DROPPED) + AddrsAmong(d, done, KEY_DROPPED6)
  }

  ghost predicate PexField(d: Entries, key: bytes) {
    HasField(d, key) && (IsAddedKey(key) || IsDroppedKey(key))
  }

  /** What the decoding loop has collected from the entries it has visited. */
  ghost predicate Collected(d: Entries, done: set<bytes>, added: set<SocketAddr>, dropped: set<SocketAddr>,
                            hasField: bool) {
    && added == AddedAmong(d, done) && dropped == DroppedAmong(d, done)
    && (hasField <==> exists key :: key in done && PexField(d, key))
    && (forall key :: key in done && PexField(d, key) ==> !FieldBroken(d, key))
  }

  lemma AddedMore(d: Entries, done: set<bytes>, key: bytes)
    ensures AddedAmong(d, done + {key}) == AddedAmong(d, done) + if IsAddedKey(key) then FieldAddrs(d, key) else {}
    ensures DroppedAmong(d, done + {key})
        == DroppedAmong(d, done) + if IsDroppedKey(key) then FieldAddrs(d, key) else {}
  {
    hide FieldAddrs, Ascii;
  }

  lemma CollectMore(d: Entries, done: set<bytes>, key: bytes, added: set<SocketAddr>, dropped: set<SocketAddr>,
                    hasField: bool)
    requires Collected(d, done, added, dropped, hasField) && (PexField(d, key) ==> !FieldBroken(d, key))
    ensures Collected(d, done + {key}, added + (if IsAddedKey(key) then FieldAddrs(d, key) else {}),
                      dropped + (if IsDroppedKey(key) then FieldAddrs(d, key) else {}), hasField || PexField(d, key))
  {
    AddedMore(d, done, key);
    hide AddedAmong, DroppedAmong, PexField, FieldBroken, FieldAddrs, IsAddedKey, IsDroppedKey;
  }

  lemma CollectedAll(d: Entries, added: set<SocketAddr>, dropped: set<SocketAddr>, hasField: bool)
    requires Collected(d, d.Keys, added, dropped, hasField)
    ensures DecodePexDict(d) == if hasField then Ok(added - dropped) else Err(InvalidMessage)
  {
    forall key
      ensures AddrsAmong(d, d.Keys, key) == FieldAddrs(d, key)
      ensures (HasField(d, key) || FieldBroken(d, key) ==> key in d.Keys) {
      if key !in d {
        FieldAbsent(d, key);
      }
    }
    hide FieldAddrs, FieldBroken, HasField, AddrsAmong, Ascii;
    assert PexField(d, KEY_ADDED) == HasField(d, KEY_ADDED) && PexField(d, KEY_ADDED6) == HasField(d, KEY_ADDED6);
    assert PexField(d, KEY_DROPPED)
        == HasField(d, KEY_DROPPED) && PexField(d, KEY_DROPPED6) == HasField(d, KEY_DROPPED6);
    BrokenIsField(d);
  }

  lemma BrokenIsField(d: Entries)
    ensures forall key :: FieldBroken(d, key) ==> HasField(d, key)
  {
  }

  /** `UtPexMessage::decode`: the loop over the entries, in whatever order. */
  method DecodePexMessage(payload: bytes) returns (r: Result<set<SocketAddr>, Error>)
    ensures r == DecodePex(payload)
  {
    var value := BencodeDecoder.DecodeWithRest(payload);
    if value.Err? {
      return Err(BencodeError(value.error));
    }
    if !value.value.0.Dict? {
      return Err(InvalidMessage);
    }
    r := CollectAddrs(value.value.0.entries);
  }

  method CollectAddrs(d: Entries) returns (r: Result<set<SocketAddr>, Error>)
    ensures r == DecodePexDict(d)
  {
    var added: set<SocketAddr>, dropped: set<SocketAddr>, hasField := {}, {}, false;
    var left := d.Keys;
    ghost var done: set<bytes> := {};
    NothingCollected(d);
    hide ParseSocketAddrs, FieldAddrs, FieldBroken, Collected, DecodePexDict, IsAddedKey, IsDroppedKey, Ascii;
    while left != {}
      invariant left <= d.Keys && done == d.Keys - left
      invariant Collected(d, done, added, dropped, hasField)
      decreases |left|
    {
      var key :| key in left;
      var addrs := ParseSocketAddrs(if d[key].Bytes? then d[key].data else []);
      FieldIs(d, key);
      if d[key].Bytes? && (IsAddedKey(key) || IsDroppedKey(key)) {
        if addrs.Err? {
          BrokenFails(d, key);
          return Err(InvalidMessage);
        }
        CollectMore(d, done, key, added, dropped, hasField);
        if IsAddedKey(key) {
          added := added + set a | a in addrs.value;
        } else {
          dropped := dropped + set a | a in addrs.value;
        }
        hasField := true;
      } else {
        CollectMore(d, done, key, added, dropped, hasField);
      }
      left, done := left - {key}, done + {key};
    }
    assert done == d.Keys;
    CollectedAll(d, added, dropped, hasField);
    if hasField {
      return Ok(added - dropped);
    }
    return Err(InvalidMessage);
  }

  lemma NothingCollected(d: Entries)
    ensures Collected(d, {}, {}, {}, false)
  {
  }

  lemma FieldIs(d: Entries, key: bytes)
    requires key in d
    ensures !d[key].Bytes? ==> FieldAddrs(d, key) == {} && !FieldBroken(d, key)
    ensures d[key].Bytes? ==> match ParseSocketAddrs(d[key].data)
                              case Err(_) => FieldBroken(d, key)
                              case Ok(addrs) => !FieldBroken(d, key) && FieldAddrs(d, key) == (set a | a in addrs)
    ensures !(IsAddedKey(key) && IsDroppedKey(key))
  {
    PexKeysDiffer();
    hide ParseSocketAddrs, Ascii;
  }

  lemma BrokenFails(d: Entries, key: bytes)
    requires FieldBroken(d, key) && (IsAddedKey(key) || IsDroppedKey(key))
    ensures DecodePexDict(d) == Err(InvalidMessage)
  {
  }

  /** `UtMetadataMessage::encode`: what it builds is read back as the message, except for the placeholder. */
  method EncodeUtMetadataMessage(m: UtMetadata) returns (payload: bytes)
    ensures payload == EncodeUtMetadata(m)
    ensures UsizeFields(m) ==> (DecodeUtMetadata(payload) == Ok(m) <==> !m.MetadataUnimplemented?)
  {
    payload := EncodeUtMetadataFields(m);
    hide *;
    if UsizeFields(m) {
      UtMetadataRoundTripIff(m);
    }
  }

  method EncodeUtMetadataFields(m: UtMetadata) returns (payload: bytes)
    ensures payload == EncodeUtMetadata(m)
  {
    if m.MetadataUnimplemented? {
      return [];
    }
    var buf := new Bencodes.Buffer();
    Bencodes.EncodeInto(UtMetadataDict(m), buf);
    assert [] + Bencodes.Encode(UtMetadataDict(m)) == Bencodes.Encode(UtMetadataDict(m));
    payload := buf.data + (if m.MetadataData? then m.data else []);
  }
}
