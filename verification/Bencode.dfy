/** The bencode value language: printer, lenient parser, and what each undoes of the other. */
module Bencodes {
  import opened Wrappers
  import opened Bytes

  datatype Error =
    | UnexpectedEof
    | UnexpectedByte(expected: byte, found: byte)
    | InvalidToken(token: byte)
    | InvalidInteger
    | InvalidStringLength
    | InvalidString
    | InvalidDictKey
    | KeyNotFound
    | TypeMismatch

  datatype Bencode =
    | Int(n: int)
    | Bytes(data: bytes)
    | List(items: seq<Bencode>)
    | Dict(entries: map<bytes, Bencode>)

  const PLUS: byte := 43    // '+'
  const MINUS: byte := 45   // '-'
  const ZERO: byte := 48    // '0'
  const COLON: byte := 58   // ':'
  const LOWER_D: byte := 100
  const LOWER_E: byte := 101
  const LOWER_I: byte := 105
  const LOWER_L: byte := 108

  predicate IsDigit(b: byte) { ZERO <= b < ZERO + 10 }

  predicate AllDigits(s: bytes) { forall i :: 0 <= i < |s| ==> IsDigit(s[i]) }

  /** What the Rust types already guarantee: `i64` integers, slices no longer than `usize`. */
  ghost predicate WellFormed(v: Bencode)
    decreases v
  {
    match v
    case Int(n) => I64_MIN <= n <= I64_MAX
    case Bytes(data) => |data| < U64_LIMIT
    case List(items) => forall i :: 0 <= i < |items| ==> WellFormed(items[i])
    case Dict(entries) => forall k :: k in entries ==> |k| < U64_LIMIT && WellFormed(entries[k])
  }

  // ---- Decimal numbers ----

  /** `n.to_string()` of an unsigned number. */
  function Decimal(n: nat): (s: bytes)
    ensures s != [] && AllDigits(s)
  {
    if n < 10 then [ZERO + n] else Decimal(n / 10) + [ZERO + n % 10]
  }

  function DecimalInt(n: int): (s: bytes)
    ensures s != []
  {
    if n < 0 then [MINUS] + Decimal(-n) else Decimal(n)
  }

  function DigitsValue(s: bytes): nat
    requires AllDigits(s)
  {
    if s == [] then 0 else DigitsValue(s[..|s| - 1]) * 10 + (s[|s| - 1] - ZERO) as int
  }

  /** `str::parse::<usize>` on a run of digits. */
  function ParseUsize(s: bytes): Option<nat>
    requires AllDigits(s)
  {
    if s == [] || DigitsValue(s) >= U64_LIMIT then None else Some(DigitsValue(s))
  }

  /** `str::parse::<i64>`: an optional sign, then at least one digit, within range. */
  function ParseI64(s: bytes): (r: Option<int>)
    ensures r.Some? ==> I64_MIN <= r.value <= I64_MAX
  {
    if s == [] then None
    else
      var signed := s[0] == PLUS || s[0] == MINUS;
      var digits := if signed then s[1..] else s;
      if digits == [] || !AllDigits(digits) then None
      else
        var magnitude: int := DigitsValue(digits);
        var v := if s[0] == MINUS then -magnitude else magnitude;
        if I64_MIN <= v <= I64_MAX then Some(v) else None
  }

  /** A number printed without leading zeros. */
  predicate Minimal(s: bytes) {
    s != [] && AllDigits(s) && (s[0] == ZERO ==> |s| == 1)
  }

  lemma {:induction false} DecimalValue(n: nat)
    ensures DigitsValue(Decimal(n)) == n
    ensures Minimal(Decimal(n))
    ensures Decimal(n)[0] == ZERO <==> n == 0
  {
    if n >= 10 {
      DecimalValue(n / 10);
      var s := Decimal(n);
      assert s[..|s| - 1] == Decimal(n / 10);
    }
  }

  /** Minimal digit strings are exactly the printed numbers. */
  lemma {:induction false} MinimalIsDecimal(s: bytes)
    requires Minimal(s)
    ensures Decimal(DigitsValue(s)) == s
    ensures |s| > 1 ==> DigitsValue(s) >= 10
  {
    if |s| > 1 {
      var init := s[..|s| - 1];
      MinimalIsDecimal(init);
      if |init| == 1 {
        assert DigitsValue(init) == (init[0] - ZERO) as int by { assert init[..0] == []; }
      }
      assert s == init + [s[|s| - 1]];
    } else {
      assert s[..0] == [];
    }
  }

  // ---- Printing ----

  function EncodeBytes(data: bytes): bytes {
    Decimal(|data|) + [COLON] + data
  }

  ghost function Encode(v: Bencode): (s: bytes)
    ensures s != []
    decreases v, 1, 0
  {
    match v
    case Int(n) => [LOWER_I] + DecimalInt(n) + [LOWER_E]
    case Bytes(data) => EncodeBytes(data)
    case List(items) => [LOWER_L] + EncodeItems(items) + [LOWER_E]
    case Dict(entries) => [LOWER_D] + EncodeEntries(v, SortedKeys(entries.Keys)) + [LOWER_E]
  }

  ghost function EncodeItems(items: seq<Bencode>): bytes
    decreases items, 0, 0
  {
    if items == [] then [] else Encode(items[0]) + EncodeItems(items[1..])
  }

  ghost function EncodeEntries(v: Bencode, ks: seq<bytes>): bytes
    requires v.Dict? && forall k :: k in ks ==> k in v.entries
    decreases v, 0, |ks|
  {
    if ks == [] then []
    else EncodeBytes(ks[0]) + Encode(v.entries[ks[0]]) + EncodeEntries(v, ks[1..])
  }

  // ---- Parsing, on the bytes not yet consumed ----

  type Parsed<T> = Result<(T, bytes), Error>

  ghost predicate Yields<T>(r: Parsed<T>, value: T, rest: bytes) {
    r.Ok? && r.value.0 == value && r.value.1 == rest
  }

  /** Index of the first `c` in `s`, or `|s|`. */
  function Until(s: bytes, c: byte): (i: nat)
    ensures i <= |s| && c !in s[..i]
    ensures i < |s| ==> s[i] == c
  {
    if s == [] || s[0] == c then 0
    else var i := 1 + Until(s[1..], c); assert s[..i] == [s[0]] + s[1..][..i - 1]; i
  }

  /** The lexemes `parse_int` lets through to `parse::<i64>`. */
  predicate AdmittedInt(lexeme: bytes) {
    && lexeme != []
    && !(|lexeme| >= 2 && lexeme[0] == MINUS && lexeme[1] == ZERO)
    && !(lexeme[0] == ZERO && |lexeme| > 1)
  }

  function ParseInt(s: bytes): (r: Parsed<Bencode>)
    requires s != [] && s[0] == LOWER_I
    ensures r.Ok? ==> |r.value.1| < |s|
  {
    var t := s[1..];
    var k := Until(t, LOWER_E);
    if k == |t| then Err(UnexpectedEof)
    else if !AdmittedInt(t[..k]) then Err(InvalidInteger)
    else match ParseI64(t[..k])
      case None => Err(InvalidInteger)
      case Some(n) => Ok((Int(n), t[k + 1..]))
  }

  /** Length of the leading run of digits. */
  function DigitRun(s: bytes): (i: nat)
    ensures i <= |s| && AllDigits(s[..i])
    ensures i < |s| ==> !IsDigit(s[i])
  {
    if s == [] || !IsDigit(s[0]) then 0
    else var i := 1 + DigitRun(s[1..]); assert s[..i] == [s[0]] + s[1..][..i - 1]; i
  }

  function ParseLen(s: bytes): (r: Parsed<nat>)
    ensures r.Ok? ==> |r.value.1| < |s| && r.value.0 < U64_LIMIT
  {
    var k := DigitRun(s);
    if k == |s| then Err(UnexpectedEof)
    else if s[k] != COLON then Err(InvalidStringLength)
    else match ParseUsize(s[..k])
      case None => Err(InvalidStringLength)
      case Some(n) => Ok((n, s[k + 1..]))
  }

  function ParseByteString(s: bytes): (r: Parsed<bytes>)
    ensures r.Ok? ==> |r.value.1| < |s| && |r.value.0| < U64_LIMIT
  {
    match ParseLen(s)
    case Err(e) => Err(e)
    case Ok((n, rest)) =>
      if n > |rest| then Err(UnexpectedEof) else Ok((rest[..n], rest[n..]))
  }

  function ParseValue(s: bytes): (r: Parsed<Bencode>)
    ensures r.Ok? ==> |r.value.1| < |s|
    decreases |s|, 0
  {
    if s == [] then Err(UnexpectedEof)
    else if s[0] == LOWER_I then ParseInt(s)
    else if s[0] == LOWER_L then
      match ParseItems(s[1..], [])
      case Err(e) => Err(e)
      case Ok((items, rest)) => Ok((List(items), rest))
    else if s[0] == LOWER_D then
      match ParseEntries(s[1..], map[])
      case Err(e) => Err(e)
      case Ok((entries, rest)) => Ok((Dict(entries), rest))
    else if IsDigit(s[0]) then
      match ParseByteString(s)
      case Err(e) => Err(e)
      case Ok((data, rest)) => Ok((Bytes(data), rest))
    else Err(InvalidToken(s[0]))
  }

  /** The loop of `parse_list`, `acc` being the elements pushed so far. */
  function ParseItems(s: bytes, acc: seq<Bencode>): (r: Parsed<seq<Bencode>>)
    ensures r.Ok? ==> |r.value.1| < |s|
    decreases |s|, 1
  {
    if s == [] then Err(UnexpectedEof)
    else if s[0] == LOWER_E then Ok((acc, s[1..]))
    else match ParseValue(s)
      case Err(e) => Err(e)
      case Ok((v, rest)) => ParseItems(rest, acc + [v])
  }

  /** The loop of `parse_dict`, `acc` being the map built so far: a repeated key keeps the last value. */
  function ParseEntries(s: bytes, acc: map<bytes, Bencode>): (r: Parsed<map<bytes, Bencode>>)
    ensures r.Ok? ==> |r.value.1| < |s|
    decreases |s|, 1
  {
    if s == [] then Err(UnexpectedEof)
    else if s[0] == LOWER_E then Ok((acc, s[1..]))
    else match ParseByteString(s)
      case Err(_) => Err(InvalidDictKey)
      case Ok((k, afterKey)) =>
        match ParseValue(afterKey)
        case Err(e) => Err(e)
        case Ok((v, rest)) => ParseEntries(rest, acc[k := v])
  }

  // ---- Printing then parsing ----

  lemma SignedParse(digits: bytes)
    requires Minimal(digits) && DigitsValue(digits) <= -I64_MIN && digits[0] != ZERO
    ensures AdmittedInt([MINUS] + digits) && ParseI64([MINUS] + digits) == Some(-(DigitsValue(digits) as int))
  {
    assert ([MINUS] + digits)[1..] == digits;
  }

  lemma DecimalIntRoundTrip(n: int)
    requires I64_MIN <= n <= I64_MAX
    ensures AdmittedInt(DecimalInt(n)) && ParseI64(DecimalInt(n)) == Some(n)
    ensures LOWER_E !in DecimalInt(n)
  {
    if n < 0 {
      DecimalValue(-n);
      SignedParse(Decimal(-n));
    } else {
      DecimalValue(n);
    }
  }

  lemma {:induction false} UntilAt(s: bytes, c: byte, rest: bytes)
    requires c !in s
    ensures Until(s + [c] + rest, c) == |s|
  {
    var t := s + [c] + rest;
    if s != [] {
      assert s[0] in s;
      assert t[1..] == s[1..] + [c] + rest;
      UntilAt(s[1..], c, rest);
    }
  }

  lemma {:induction false} DigitRunAt(s: bytes, c: byte, rest: bytes)
    requires AllDigits(s) && !IsDigit(c)
    ensures DigitRun(s + [c] + rest) == |s|
  {
    var t := s + [c] + rest;
    if s != [] {
      assert t[1..] == s[1..] + [c] + rest;
      DigitRunAt(s[1..], c, rest);
    }
  }

  lemma ByteStringRoundTrip(data: bytes, rest: bytes)
    requires |data| < U64_LIMIT
    ensures ParseByteString(EncodeBytes(data) + rest) == Ok((data, rest))
    ensures IsDigit(EncodeBytes(data)[0])
  {
    var d := Decimal(|data|);
    var s := EncodeBytes(data) + rest;
    DecimalValue(|data|);
    assert s == d + [COLON] + (data + rest);
    DigitRunAt(d, COLON, data + rest);
    assert s[..|d|] == d;
    assert s[|d| + 1..] == data + rest;
  }

  lemma ParseIntAt(lexeme: bytes, n: int, rest: bytes)
    requires LOWER_E !in lexeme && AdmittedInt(lexeme) && ParseI64(lexeme) == Some(n)
    ensures Yields(ParseInt([LOWER_I] + (lexeme + [LOWER_E] + rest)), Int(n), rest)
  {
    var t := lexeme + [LOWER_E] + rest;
    assert ([LOWER_I] + t)[1..] == t;
    UntilAt(lexeme, LOWER_E, rest);
    assert t[..|lexeme|] == lexeme && t[|lexeme| + 1..] == rest;
  }

  lemma IntRoundTrip(n: int, rest: bytes)
    requires I64_MIN <= n <= I64_MAX
    ensures Yields(ParseInt(Encode(Int(n)) + rest), Int(n), rest)
  {
    hide ParseInt, AdmittedInt, ParseI64, DecimalInt;
    var d := DecimalInt(n);
    DecimalIntRoundTrip(n);
    ParseIntAt(d, n, rest);
    assert Encode(Int(n)) + rest == [LOWER_I] + (d + [LOWER_E] + rest);
  }

  /** First byte of an encoding: it never looks like the end marker of a list or dictionary. */
  lemma EncodeHead(v: Bencode)
    ensures var b := Encode(v)[0];
      match v
      case Int(_) => b == LOWER_I
      case Bytes(_) => IsDigit(b)
      case List(_) => b == LOWER_L
      case Dict(_) => b == LOWER_D
  {
  }

  // Proof device: the encoding of a value placed in front of what follows it, so that the
  // inductions below never have to re-associate concatenations.

  ghost function Emit(v: Bencode, k: bytes): (s: bytes)
    decreases v, 1, 0
  {
    match v
    case Int(_) => Encode(v) + k
    case Bytes(_) => Encode(v) + k
    case List(items) => [LOWER_L] + EmitItems(items, [LOWER_E] + k)
    case Dict(entries) => [LOWER_D] + EmitEntries(v, SortedKeys(entries.Keys), [LOWER_E] + k)
  }

  ghost function EmitItems(items: seq<Bencode>, k: bytes): bytes
    decreases items, 0, 0
  {
    if items == [] then k else Emit(items[0], EmitItems(items[1..], k))
  }

  ghost function EmitEntries(v: Bencode, ks: seq<bytes>, k: bytes): bytes
    requires v.Dict? && forall x :: x in ks ==> x in v.entries
    decreases v, 0, |ks|
  {
    if ks == [] then k
    else EncodeBytes(ks[0]) + Emit(v.entries[ks[0]], EmitEntries(v, ks[1..], k))
  }

  lemma {:induction false} EmitIsEncode(v: Bencode, k: bytes)
    ensures Emit(v, k) == Encode(v) + k
    decreases v, 1, 0
  {
    match v
    case Int(_) =>
    case Bytes(_) =>
    case List(items) =>
      EmitItemsIsEncode(items, [LOWER_E] + k);
      Reassociate(EncodeItems(items), [LOWER_E], k);
      Reassociate([LOWER_L], EncodeItems(items) + [LOWER_E], k);
      Reassociate([LOWER_L], EncodeItems(items), [LOWER_E]);
    case Dict(entries) =>
      var ks := SortedKeys(entries.Keys);
      EmitEntriesIsEncode(v, ks, [LOWER_E] + k);
      Reassociate(EncodeEntries(v, ks), [LOWER_E], k);
      Reassociate([LOWER_D], EncodeEntries(v, ks) + [LOWER_E], k);
      Reassociate([LOWER_D], EncodeEntries(v, ks), [LOWER_E]);
  }

  lemma {:induction false} EmitItemsIsEncode(items: seq<Bencode>, k: bytes)
    ensures EmitItems(items, k) == EncodeItems(items) + k
    decreases items, 0, 0
  {
    if items != [] {
      EmitItemsIsEncode(items[1..], k);
      EmitIsEncode(items[0], EmitItems(items[1..], k));
      Reassociate(Encode(items[0]), EncodeItems(items[1..]), k);
    }
  }

  lemma {:induction false} EmitEntriesIsEncode(v: Bencode, ks: seq<bytes>, k: bytes)
    requires v.Dict? && forall x :: x in ks ==> x in v.entries
    ensures EmitEntries(v, ks, k) == EncodeEntries(v, ks) + k
    decreases v, 0, |ks|
  {
    if ks != [] {
      var key, value, tail := EncodeBytes(ks[0]), Encode(v.entries[ks[0]]), EncodeEntries(v, ks[1..]);
      EmitEntriesIsEncode(v, ks[1..], k);
      EmitIsEncode(v.entries[ks[0]], EmitEntries(v, ks[1..], k));
      Reassociate(value, tail, k);
      Reassociate(key, value + tail, k);
      Reassociate(key, value, tail);
    }
  }

  lemma EmitHead(v: Bencode, k: bytes)
    ensures Emit(v, k) != [] && Emit(v, k)[0] == Encode(v)[0]
  {
    EmitIsEncode(v, k);
  }

  lemma {:induction false} EmitThenParse(v: Bencode, rest: bytes)
    requires WellFormed(v)
    ensures Yields(ParseValue(Emit(v, rest)), v, rest)
    decreases v, 1, 0
  {
    match v
    case Int(n) => IntRoundTrip(n, rest);
    case Bytes(data) => ByteStringRoundTrip(data, rest);
    case List(items) => ListRoundTrip(items, rest);
    case Dict(_) => DictRoundTrip(v, rest);
  }

  lemma {:induction false} ListRoundTrip(items: seq<Bencode>, rest: bytes)
    requires WellFormed(List(items))
    ensures Yields(ParseValue(Emit(List(items), rest)), List(items), rest)
    decreases List(items), 0, 0
  {
    ItemsRoundTrip(items, [], rest);
    assert [] + items == items;
    ParseListAt(EmitItems(items, [LOWER_E] + rest), items, rest);
  }

  lemma EmitDict(v: Bencode, k: bytes)
    requires v.Dict?
    ensures Emit(v, k) == [LOWER_D] + EmitEntries(v, SortedKeys(v.entries.Keys), [LOWER_E] + k)
  {
    hide EmitEntries, SortedKeys, Encode;
  }

  lemma {:induction false} DictRoundTrip(v: Bencode, rest: bytes)
    requires WellFormed(v) && v.Dict?
    ensures Yields(ParseValue(Emit(v, rest)), v, rest)
    decreases v, 0, |SortedKeys(v.entries.Keys)| + 1
  {
    hide ParseValue, ParseEntries, Emit, EmitEntries, SortedKeys, WellFormed, Encode;
    var ks := SortedKeys(v.entries.Keys);
    var t := EmitEntries(v, ks, [LOWER_E] + rest);
    EmitDict(v, rest);
    assert Yields(ParseEntries(t, map[]), v.entries, rest) by {
      EntriesRoundTrip(v, ks, map[], rest);
      assert map[] + Selected(v, ks) == v.entries;
    }
    ParseDictAt(t, v.entries, rest);
  }

  lemma ParseListAt(t: bytes, items: seq<Bencode>, rest: bytes)
    requires Yields(ParseItems(t, []), items, rest)
    ensures Yields(ParseValue([LOWER_L] + t), List(items), rest)
  {
    assert ([LOWER_L] + t)[1..] == t;
  }

  lemma ParseDictAt(t: bytes, entries: map<bytes, Bencode>, rest: bytes)
    requires Yields(ParseEntries(t, map[]), entries, rest)
    ensures Yields(ParseValue([LOWER_D] + t), Dict(entries), rest)
  {
    assert ([LOWER_D] + t)[1..] == t;
  }

  lemma ItemsStep(s: bytes, acc: seq<Bencode>, v: Bencode, rest: bytes)
    requires s != [] && s[0] != LOWER_E && Yields(ParseValue(s), v, rest)
    ensures ParseItems(s, acc) == ParseItems(rest, acc + [v])
  {
  }

  lemma ItemsEnd(acc: seq<Bencode>, rest: bytes)
    ensures Yields(ParseItems(EmitItems([], [LOWER_E] + rest), acc), acc + [], rest)
  {
    assert acc + [] == acc;
  }

  lemma ItemsHead(v: Bencode, tail: bytes, acc: seq<Bencode>)
    requires Yields(ParseValue(Emit(v, tail)), v, tail)
    ensures ParseItems(Emit(v, tail), acc) == ParseItems(tail, acc + [v])
  {
    hide ParseValue, ParseItems, Encode, Emit;
    EmitHead(v, tail);
    EncodeHead(v);
    ItemsStep(Emit(v, tail), acc, v, tail);
  }

  lemma EmitItemsHead(items: seq<Bencode>, k: bytes)
    requires items != []
    ensures EmitItems(items, k) == Emit(items[0], EmitItems(items[1..], k))
  {
    hide Emit;
  }

  lemma {:induction false} ItemsRoundTrip(items: seq<Bencode>, acc: seq<Bencode>, rest: bytes)
    requires forall i :: 0 <= i < |items| ==> WellFormed(items[i])
    ensures Yields(ParseItems(EmitItems(items, [LOWER_E] + rest), acc), acc + items, rest)
    decreases items, 0, 0
  {
    hide *;
    if items == [] {
      ItemsEnd(acc, rest);
    } else {
      var tail := EmitItems(items[1..], [LOWER_E] + rest);
      EmitItemsHead(items, [LOWER_E] + rest);
      EmitThenParse(items[0], tail);
      ItemsHead(items[0], tail, acc);
      ItemsRoundTrip(items[1..], acc + [items[0]], rest);
      assert acc + [items[0]] + items[1..] == acc + items;
    }
  }

  ghost function Selected(v: Bencode, ks: seq<bytes>): map<bytes, Bencode>
    requires v.Dict? && forall k :: k in ks ==> k in v.entries
  {
    map k | k in ks :: v.entries[k]
  }

  lemma EntriesStep(s: bytes, acc: map<bytes, Bencode>, k: bytes, afterKey: bytes, v: Bencode, rest: bytes)
    requires s != [] && s[0] != LOWER_E
    requires Yields(ParseByteString(s), k, afterKey) && Yields(ParseValue(afterKey), v, rest)
    ensures ParseEntries(s, acc) == ParseEntries(rest, acc[k := v])
  {
  }

  lemma SelectedSplit(v: Bencode, ks: seq<bytes>, acc: map<bytes, Bencode>)
    requires v.Dict? && ks != [] && forall k :: k in ks ==> k in v.entries
    ensures acc[ks[0] := v.entries[ks[0]]] + Selected(v, ks[1..]) == acc + Selected(v, ks)
  {
  }

  lemma {:induction false} EntriesRoundTrip(v: Bencode, ks: seq<bytes>, acc: map<bytes, Bencode>, rest: bytes)
    requires WellFormed(v) && v.Dict? && forall k :: k in ks ==> k in v.entries
    ensures Yields(ParseEntries(EmitEntries(v, ks, [LOWER_E] + rest), acc), acc + Selected(v, ks), rest)
    decreases v, 0, |ks|
  {
    if ks == [] {
      assert acc + Selected(v, ks) == acc;
    } else {
      var k, tail := ks[0], EmitEntries(v, ks[1..], [LOWER_E] + rest);
      var acc' := acc[k := v.entries[k]];
      assert ParseEntries(EmitEntries(v, ks, [LOWER_E] + rest), acc) == ParseEntries(tail, acc') by {
        ByteStringRoundTrip(k, Emit(v.entries[k], tail));
        EmitThenParse(v.entries[k], tail);
        EntriesStep(EmitEntries(v, ks, [LOWER_E] + rest), acc, k, Emit(v.entries[k], tail), v.entries[k], tail);
      }
      assert Yields(ParseEntries(tail, acc'), acc + Selected(v, ks), rest) by {
        EntriesRoundTrip(v, ks[1..], acc', rest);
        SelectedSplit(v, ks, acc);
      }
    }
  }

  /** Parsing a printed value, whatever follows it, gives the value back and leaves what follows. */
  lemma PrintThenParse(v: Bencode, rest: bytes)
    requires WellFormed(v)
    ensures ParseValue(Encode(v) + rest) == Ok((v, rest))
  {
    EmitThenParse(v, rest);
    EmitIsEncode(v, rest);
  }

  /** No encoding is a proper prefix of another one. */
  lemma PrefixFree(v: Bencode, w: Bencode, rest: bytes)
    requires WellFormed(v) && WellFormed(w)
    requires Encode(v) == Encode(w) + rest
    ensures v == w && rest == []
  {
    PrintThenParse(v, []);
    PrintThenParse(w, rest);
    assert Encode(v) + [] == Encode(v);
  }

  // ---- What the lenient parser accepts, and when re-encoding reproduces the input ----

  /** Every value the parser builds is one the printer is correct on. */
  lemma {:induction false} ParsedIsWellFormed(s: bytes)
    requires ParseValue(s).Ok?
    ensures WellFormed(ParseValue(s).value.0)
    decreases |s|, 0
  {
    if s[0] == LOWER_L {
      ParsedItemsWellFormed(s[1..], []);
    } else if s[0] == LOWER_D {
      ParsedEntriesWellFormed(s[1..], map[]);
    }
  }

  lemma {:induction false} ParsedItemsWellFormed(s: bytes, acc: seq<Bencode>)
    requires ParseItems(s, acc).Ok? && WellFormed(List(acc))
    ensures WellFormed(List(ParseItems(s, acc).value.0))
    decreases |s|, 1
  {
    if s[0] != LOWER_E {
      ParsedIsWellFormed(s);
      var Ok((v, rest)) := ParseValue(s);
      ParsedItemsWellFormed(rest, acc + [v]);
    }
  }

  lemma {:induction false} ParsedEntriesWellFormed(s: bytes, acc: map<bytes, Bencode>)
    requires ParseEntries(s, acc).Ok? && WellFormed(Dict(acc))
    ensures WellFormed(Dict(ParseEntries(s, acc).value.0))
    decreases |s|, 1
  {
    if s[0] != LOWER_E {
      var Ok((k, afterKey)) := ParseByteString(s);
      ParsedIsWellFormed(afterKey);
      var Ok((v, rest)) := ParseValue(afterKey);
      ParsedEntriesWellFormed(rest, acc[k := v]);
    }
  }

  /** Re-encoding is an idempotent normalisation: what was accepted once is accepted again, unchanged. */
  lemma Normalisation(s: bytes, rest: bytes)
    requires ParseValue(s).Ok?
    ensures var v := ParseValue(s).value.0; ParseValue(Encode(v) + rest) == Ok((v, rest))
  {
    ParsedIsWellFormed(s);
    PrintThenParse(ParseValue(s).value.0, rest);
  }

  /** A canonical integer lexeme: no `+`, no leading zero, no `-0`, within `i64`. */
  predicate CanonicalInt(lexeme: bytes) {
    if lexeme != [] && lexeme[0] == MINUS then
      Minimal(lexeme[1..]) && lexeme[1] != ZERO && DigitsValue(lexeme[1..]) <= -I64_MIN
    else
      Minimal(lexeme) && DigitsValue(lexeme) <= I64_MAX
  }

  /** A byte string whose length is written without leading zeros. */
  function CanonicalString(s: bytes): (r: Option<(bytes, bytes)>)
    ensures r.Some? ==> |r.value.1| < |s|
  {
    if !Minimal(s[..DigitRun(s)]) then None
    else match ParseByteString(s)
      case Err(_) => None
      case Ok(p) => Some(p)
  }

  /** Recogniser of canonical bencode: builds no value, returns what follows the value read. */
  function Canonical(s: bytes): (r: Option<bytes>)
    ensures r.Some? ==> |r.value| < |s|
    decreases |s|, 0
  {
    if s == [] then None
    else if s[0] == LOWER_I then
      var t := s[1..];
      var k := Until(t, LOWER_E);
      if k < |t| && CanonicalInt(t[..k]) then Some(t[k + 1..]) else None
    else if s[0] == LOWER_L then CanonicalItems(s[1..])
    else if s[0] == LOWER_D then CanonicalEntries(s[1..], None)
    else match CanonicalString(s)
      case None => None
      case Some((_, rest)) => Some(rest)
  }

  function CanonicalItems(s: bytes): (r: Option<bytes>)
    ensures r.Some? ==> |r.value| < |s|
    decreases |s|, 1
  {
    if s == [] then None
    else if s[0] == LOWER_E then Some(s[1..])
    else match Canonical(s)
      case None => None
      case Some(rest) => CanonicalItems(rest)
  }

  predicate After(prev: Option<bytes>, k: bytes) {
    prev.Some? ==> Less(prev.value, k)
  }

  function CanonicalEntries(s: bytes, prev: Option<bytes>): (r: Option<bytes>)
    ensures r.Some? ==> |r.value| < |s|
    decreases |s|, 1
  {
    if s == [] then None
    else if s[0] == LOWER_E then Some(s[1..])
    else match CanonicalString(s)
      case None => None
      case Some((k, afterKey)) =>
        if !After(prev, k) then None
        else match Canonical(afterKey)
          case None => None
          case Some(rest) => CanonicalEntries(rest, Some(k))
  }

  lemma {:induction false} UntilSplits(s: bytes, c: byte)
    requires Until(s, c) < |s|
    ensures var k := Until(s, c); s == s[..k] + [c] + s[k + 1..]
  {
  }

  lemma EmitInt(n: int, rest: bytes)
    ensures Emit(Int(n), rest) == [LOWER_I] + (DecimalInt(n) + [LOWER_E] + rest)
  {
  }

  lemma CanonicalIntReads(s: bytes)
    requires s != [] && s[0] == LOWER_I && Canonical(s).Some?
    ensures ParseValue(s).Ok? && ParseValue(s).value.1 == Canonical(s).value
    ensures Emit(ParseValue(s).value.0, Canonical(s).value) == s
  {
    var t := s[1..];
    var k := Until(t, LOWER_E);
    var lexeme, rest := t[..k], t[k + 1..];
    CanonicalLexeme(lexeme);
    var n := ParseI64(lexeme).value;
    assert s == [LOWER_I] + (lexeme + [LOWER_E] + rest) by { UntilSplits(t, LOWER_E); }
    assert Yields(ParseInt(s), Int(n), rest) by { ParseIntAt(lexeme, n, rest); }
    assert Emit(Int(n), rest) == s by { EmitInt(n, rest); }
  }

  lemma CanonicalLexeme(lexeme: bytes)
    requires CanonicalInt(lexeme)
    ensures AdmittedInt(lexeme) && ParseI64(lexeme).Some? && DecimalInt(ParseI64(lexeme).value) == lexeme
  {
    if lexeme[0] == MINUS {
      var d := lexeme[1..];
      MinimalIsDecimal(d);
      DecimalValue(DigitsValue(d));
      assert lexeme == [MINUS] + d;
    } else {
      MinimalIsDecimal(lexeme);
    }
  }

  lemma CanonicalStringReads(s: bytes)
    requires CanonicalString(s).Some?
    ensures ParseByteString(s) == Ok(CanonicalString(s).value)
    ensures EncodeBytes(CanonicalString(s).value.0) + CanonicalString(s).value.1 == s
  {
    var k := DigitRun(s);
    var Some((data, rest)) := CanonicalString(s);
    MinimalIsDecimal(s[..k]);
    assert s == s[..k] + [COLON] + s[k + 1..];
    assert s[k + 1..] == data + rest;
    Reassociate(s[..k] + [COLON], data, rest);
  }

  lemma EntriesFrame(m: map<bytes, Bencode>, k: bytes, v: Bencode, ks: seq<bytes>, tail: bytes)
    requires k !in ks && forall x :: x in ks ==> x in m
    ensures EmitEntries(Dict(m[k := v]), ks, tail) == EmitEntries(Dict(m), ks, tail)
    decreases |ks|
  {
    if ks != [] {
      EntriesFrame(m, k, v, ks[1..], tail);
    }
  }

  /** On canonical input the parser returns the value whose encoding was consumed. */
  lemma {:induction false} CanonicalReads(s: bytes) returns (v: Bencode)
    requires Canonical(s).Some?
    ensures Yields(ParseValue(s), v, Canonical(s).value)
    ensures Emit(v, Canonical(s).value) == s
    decreases |s|, 0
  {
    var rest := Canonical(s).value;
    if s[0] == LOWER_I {
      CanonicalIntReads(s);
      v := ParseValue(s).value.0;
    } else if s[0] == LOWER_L {
      var items := CanonicalItemsRead(s[1..], []);
      assert [] + items == items;
      v := List(items);
    } else if s[0] == LOWER_D {
      var m, ks := CanonicalEntriesRead(s[1..], None, map[]);
      assert map[] + m == m;
      v := Dict(m);
      AscendingUnique(ks, SortedKeys(m.Keys));
    } else {
      CanonicalStringReads(s);
      v := Bytes(CanonicalString(s).value.0);
    }
  }

  lemma {:induction false} CanonicalItemsRead(s: bytes, acc: seq<Bencode>) returns (items: seq<Bencode>)
    requires CanonicalItems(s).Some?
    ensures Yields(ParseItems(s, acc), acc + items, CanonicalItems(s).value)
    ensures EmitItems(items, [LOWER_E] + CanonicalItems(s).value) == s
    decreases |s|, 1
  {
    if s[0] == LOWER_E {
      items := [];
      assert acc + items == acc;
    } else {
      var v := CanonicalReads(s);
      var later := CanonicalItemsRead(Canonical(s).value, acc + [v]);
      items := [v] + later;
      assert acc + [v] + later == acc + items;
    }
  }

  lemma {:induction false} CanonicalEntriesRead(s: bytes, prev: Option<bytes>, acc: map<bytes, Bencode>)
      returns (m: map<bytes, Bencode>, ks: seq<bytes>)
    requires CanonicalEntries(s, prev).Some?
    ensures KeySet(ks) == m.Keys && Ascending(ks) && (forall x :: x in ks ==> After(prev, x))
    ensures Yields(ParseEntries(s, acc), acc + m, CanonicalEntries(s, prev).value)
    ensures EmitEntries(Dict(m), ks, [LOWER_E] + CanonicalEntries(s, prev).value) == s
    decreases |s|, 1
  {
    if s[0] == LOWER_E {
      m, ks := map[], [];
      assert acc + m == acc;
    } else {
      var Some((k, afterKey)) := CanonicalString(s);
      var rest := Canonical(afterKey).value;
      var out := CanonicalEntries(s, prev).value;
      assert CanonicalEntries(rest, Some(k)) == Some(out);
      var v := CanonicalReads(afterKey);
      var m', ks' := CanonicalEntriesRead(rest, Some(k), acc[k := v]);
      m, ks := m'[k := v], [k] + ks';
      KeysExtend(prev, k, ks', m', v);
      assert Yields(ParseEntries(s, acc), acc + m, out) by {
        CanonicalStringReads(s);
        EntriesStep(s, acc, k, afterKey, v, rest);
        InsertCommutes(acc, k, v, ks', m');
      }
      assert EmitEntries(Dict(m), ks, [LOWER_E] + out) == s by {
        CanonicalStringReads(s);
        EntriesExtend(m', k, v, ks', [LOWER_E] + out);
      }
    }
  }

  /** Inserting a key before keys that differ from it is the same as inserting it after them. */
  lemma InsertCommutes(acc: map<bytes, Bencode>, k: bytes, v: Bencode, ks: seq<bytes>, m: map<bytes, Bencode>)
    requires KeySet(ks) == m.Keys && forall x :: x in ks ==> Less(k, x)
    ensures acc[k := v] + m == acc + m[k := v]
  {
    LessTotal(k, k);
    assert k !in KeySet(ks);
  }

  lemma KeysExtend(prev: Option<bytes>, k: bytes, ks: seq<bytes>, m: map<bytes, Bencode>, v: Bencode)
    requires After(prev, k) && Ascending(ks) && KeySet(ks) == m.Keys && forall x :: x in ks ==> Less(k, x)
    ensures Ascending([k] + ks) && KeySet([k] + ks) == m[k := v].Keys
    ensures forall x :: x in [k] + ks ==> After(prev, x)
  {
    forall x | x in ks ensures After(prev, x) {
      if prev.Some? { LessTransitive(prev.value, k, x); }
    }
    forall x ensures x in KeySet([k] + ks) <==> x in m[k := v].Keys {
      assert x in KeySet(ks) <==> x in m.Keys;
    }
  }

  lemma EntriesExtend(m: map<bytes, Bencode>, k: bytes, v: Bencode, ks: seq<bytes>, tail: bytes)
    requires (forall x :: x in ks ==> x in m && Less(k, x))
    ensures EmitEntries(Dict(m[k := v]), [k] + ks, tail) == EncodeBytes(k) + Emit(v, EmitEntries(Dict(m), ks, tail))
  {
    LessTotal(k, k);
    EntriesFrame(m, k, v, ks, tail);
    assert ([k] + ks)[1..] == ks;
  }

  lemma DecimalIntIsCanonical(n: int)
    requires I64_MIN <= n <= I64_MAX
    ensures CanonicalInt(DecimalInt(n))
  {
    DecimalValue(if n < 0 then -n else n);
    if n < 0 {
      assert DecimalInt(n)[1..] == Decimal(-n);
    }
  }

  lemma EncodedStringIsCanonical(data: bytes, rest: bytes)
    requires |data| < U64_LIMIT
    ensures CanonicalString(EncodeBytes(data) + rest) == Some((data, rest))
  {
    var d := Decimal(|data|);
    var s := EncodeBytes(data) + rest;
    ByteStringRoundTrip(data, rest);
    DecimalValue(|data|);
    assert s == d + [COLON] + (data + rest);
    DigitRunAt(d, COLON, data + rest);
    assert s[..DigitRun(s)] == d;
  }

  lemma EncodedIntIsCanonical(n: int, rest: bytes)
    requires I64_MIN <= n <= I64_MAX
    ensures Canonical(Encode(Int(n)) + rest) == Some(rest)
  {
    var d := DecimalInt(n);
    var s := Encode(Int(n)) + rest;
    DecimalIntRoundTrip(n);
    DecimalIntIsCanonical(n);
    UntilAt(d, LOWER_E, rest);
    assert s[1..] == d + [LOWER_E] + rest;
    assert s[1..][..|d|] == d;
    assert s[1..][|d| + 1..] == rest;
  }

  /** Everything the printer produces is canonical. */
  lemma {:induction false} EmittedIsCanonical(v: Bencode, rest: bytes)
    requires WellFormed(v)
    ensures Canonical(Emit(v, rest)) == Some(rest)
    decreases v, 1, 0
  {
    match v
    case Int(n) => EncodedIntIsCanonical(n, rest);
    case Bytes(data) =>
      EncodedStringIsCanonical(data, rest);
      ByteStringRoundTrip(data, rest);
    case List(items) =>
      EmittedItemsCanonical(items, rest);
      CanonicalListAt(EmitItems(items, [LOWER_E] + rest));
    case Dict(entries) =>
      var ks := SortedKeys(entries.Keys);
      EmittedEntriesCanonical(v, ks, None, rest);
      CanonicalDictAt(EmitEntries(v, ks, [LOWER_E] + rest));
  }

  lemma CanonicalListAt(t: bytes)
    ensures Canonical([LOWER_L] + t) == CanonicalItems(t)
  {
    assert ([LOWER_L] + t)[1..] == t;
  }

  lemma CanonicalDictAt(t: bytes)
    ensures Canonical([LOWER_D] + t) == CanonicalEntries(t, None)
  {
    assert ([LOWER_D] + t)[1..] == t;
  }

  lemma {:induction false} EmittedItemsCanonical(items: seq<Bencode>, rest: bytes)
    requires forall i :: 0 <= i < |items| ==> WellFormed(items[i])
    ensures CanonicalItems(EmitItems(items, [LOWER_E] + rest)) == Some(rest)
    decreases items, 0, 0
  {
    if items != [] {
      var tail := EmitItems(items[1..], [LOWER_E] + rest);
      EmittedIsCanonical(items[0], tail);
      EmitHead(items[0], tail);
      EncodeHead(items[0]);
      EmittedItemsCanonical(items[1..], rest);
    }
  }

  lemma CanonicalEntriesStep(s: bytes, prev: Option<bytes>, k: bytes, afterKey: bytes, rest: bytes)
    requires s != [] && s[0] != LOWER_E && After(prev, k)
    requires CanonicalString(s) == Some((k, afterKey)) && Canonical(afterKey) == Some(rest)
    ensures CanonicalEntries(s, prev) == CanonicalEntries(rest, Some(k))
  {
  }

  lemma {:induction false} EmittedEntriesCanonical(v: Bencode, ks: seq<bytes>, prev: Option<bytes>, rest: bytes)
    requires WellFormed(v) && v.Dict? && (forall k :: k in ks ==> k in v.entries)
    requires Ascending(ks) && (ks != [] ==> After(prev, ks[0]))
    ensures CanonicalEntries(EmitEntries(v, ks, [LOWER_E] + rest), prev) == Some(rest)
    decreases v, 0, |ks|
  {
    if ks != [] {
      var k, tail := ks[0], EmitEntries(v, ks[1..], [LOWER_E] + rest);
      var afterKey := Emit(v.entries[k], tail);
      EncodedStringIsCanonical(k, afterKey);
      ByteStringRoundTrip(k, afterKey);
      EmittedIsCanonical(v.entries[k], tail);
      CanonicalEntriesStep(EmitEntries(v, ks, [LOWER_E] + rest), prev, k, afterKey, tail);
      EmittedEntriesCanonical(v, ks[1..], Some(k), rest);
    }
  }

  /** Re-encoding a decoded value reproduces the consumed bytes exactly when they were canonical. */
  lemma ReencodesIffCanonical(s: bytes)
    requires ParseValue(s).Ok?
    ensures var (v, rest) := ParseValue(s).value;
      Encode(v) + rest == s <==> Canonical(s) == Some(rest)
  {
    var (v, rest) := ParseValue(s).value;
    EmitIsEncode(v, rest);
    if Canonical(s) == Some(rest) {
      var w := CanonicalReads(s);
    }
    if Encode(v) + rest == s {
      ParsedIsWellFormed(s);
      EmittedIsCanonical(v, rest);
    }
  }

  // ---- Where the info dictionary stands in a file ----

  predicate IsSuffix(r: bytes, s: bytes) {
    |r| <= |s| && s[|s| - |r|..] == r
  }

  lemma SuffixOfSuffix(q: bytes, r: bytes, s: bytes)
    requires IsSuffix(q, r) && IsSuffix(r, s)
    ensures IsSuffix(q, s)
  {
    assert s[|s| - |r|..][|r| - |q|..] == s[|s| - |q|..];
  }

  lemma TailIsSuffix(s: bytes, k: nat)
    requires k <= |s|
    ensures IsSuffix(s[k..], s)
  {
  }

  /** Parsing consumes a prefix: what it leaves is the end of what it was given. */
  lemma StringLeavesSuffix(s: bytes)
    requires ParseByteString(s).Ok?
    ensures IsSuffix(ParseByteString(s).value.1, s)
  {
    var Ok((n, rest)) := ParseLen(s);
    TailIsSuffix(s, DigitRun(s) + 1);
    TailIsSuffix(rest, n);
    SuffixOfSuffix(rest[n..], rest, s);
  }

  lemma {:induction false} ValueLeavesSuffix(s: bytes)
    requires ParseValue(s).Ok?
    ensures IsSuffix(ParseValue(s).value.1, s)
    decreases |s|, 0
  {
    TailIsSuffix(s, 1);
    hide IsSuffix;
    if s[0] == LOWER_I {
      TailIsSuffix(s[1..], Until(s[1..], LOWER_E) + 1);
      SuffixOfSuffix(ParseValue(s).value.1, s[1..], s);
    } else if s[0] == LOWER_L {
      ItemsLeaveSuffix(s[1..], []);
      SuffixOfSuffix(ParseValue(s).value.1, s[1..], s);
    } else if s[0] == LOWER_D {
      EntriesLeaveSuffix(s[1..], map[]);
      SuffixOfSuffix(ParseValue(s).value.1, s[1..], s);
    } else {
      StringLeavesSuffix(s);
    }
  }

  lemma {:induction false} ItemsLeaveSuffix(s: bytes, acc: seq<Bencode>)
    requires ParseItems(s, acc).Ok?
    ensures IsSuffix(ParseItems(s, acc).value.1, s)
    decreases |s|, 1
  {
    if s[0] == LOWER_E {
      TailIsSuffix(s, 1);
    } else {
      hide IsSuffix;
      ValueLeavesSuffix(s);
      var Ok((v, rest)) := ParseValue(s);
      ItemsLeaveSuffix(rest, acc + [v]);
      SuffixOfSuffix(ParseItems(s, acc).value.1, rest, s);
    }
  }

  lemma {:induction false} EntriesLeaveSuffix(s: bytes, acc: map<bytes, Bencode>)
    requires ParseEntries(s, acc).Ok?
    ensures IsSuffix(ParseEntries(s, acc).value.1, s)
    decreases |s|, 1
  {
    if s[0] == LOWER_E {
      TailIsSuffix(s, 1);
    } else {
      hide IsSuffix;
      var afterKey, rest := EntryLeavesSuffix(s, acc);
      EntriesLeaveSuffix(rest, acc[ParseByteString(s).value.0 := ParseValue(afterKey).value.0]);
      SuffixOfSuffix(ParseEntries(s, acc).value.1, rest, s);
    }
  }

  /** One entry: its value stands behind the key, and the other entries behind the value. */
  lemma {:induction false} EntryLeavesSuffix(s: bytes, acc: map<bytes, Bencode>) returns (afterKey: bytes, rest: bytes)
    requires ParseEntries(s, acc).Ok? && s[0] != LOWER_E
    ensures ParseByteString(s).Ok? && ParseByteString(s).value.1 == afterKey
    ensures ParseValue(afterKey).Ok? && ParseValue(afterKey).value.1 == rest
    ensures IsSuffix(afterKey, s) && IsSuffix(rest, afterKey) && IsSuffix(rest, s) && |rest| < |s|
    decreases |s|, 0
  {
    hide IsSuffix;
    afterKey := ParseByteString(s).value.1;
    rest := ParseValue(afterKey).value.1;
    StringLeavesSuffix(s);
    ValueLeavesSuffix(afterKey);
    SuffixOfSuffix(rest, afterKey, s);
  }

  /** The end of the input from the last value of `key` on, and from behind that value on. */
  function LastValue(s: bytes, key: bytes, found: Option<(bytes, bytes)>): Option<(bytes, bytes)>
    decreases |s|
  {
    if s == [] || s[0] == LOWER_E then found
    else match ParseByteString(s)
      case Err(_) => found
      case Ok((k, afterKey)) =>
        match ParseValue(afterKey)
        case Err(_) => found
        case Ok((_, rest)) => LastValue(rest, key, if k == key then Some((afterKey, rest)) else found)
  }

  /** `found` is where the value that the map has for `key` stands in `s`. */
  ghost predicate Stands(s: bytes, acc: map<bytes, Bencode>, key: bytes, found: Option<(bytes, bytes)>) {
    && (key in acc <==> found.Some?)
    && (found.Some? ==>
         && IsSuffix(found.value.0, s) && IsSuffix(found.value.1, found.value.0)
         && Yields(ParseValue(found.value.0), acc[key], found.value.1))
  }

  lemma {:induction false} LastValueStands(whole: bytes, s: bytes, acc: map<bytes, Bencode>, key: bytes,
                                           found: Option<(bytes, bytes)>)
    requires ParseEntries(s, acc).Ok? && IsSuffix(s, whole) && Stands(whole, acc, key, found)
    ensures Stands(whole, ParseEntries(s, acc).value.0, key, LastValue(s, key, found))
    decreases |s|
  {
    if s[0] != LOWER_E {
      var afterKey, rest := EntryLeavesSuffix(s, acc);
      var k, v := ParseByteString(s).value.0, ParseValue(afterKey).value.0;
      hide IsSuffix;
      SuffixOfSuffix(afterKey, s, whole);
      SuffixOfSuffix(rest, s, whole);
      LastValueStands(whole, rest, acc[k := v], key, if k == key then Some((afterKey, rest)) else found);
    }
  }

  /**
   * The info-hash is taken over the re-encoded value of `info`. It is taken over the bytes that stand in the file,
   * whatever else the file contains, exactly when those bytes are canonical.
   */
  lemma InfoBytesAreTheFileBytesIff(s: bytes, key: bytes)
    requires ParseValue(s).Ok? && Get(ParseValue(s).value.0, key).Ok?
    ensures var found := LastValue(s[1..], key, None); var info := Get(ParseValue(s).value.0, key).value;
      && found.Some? && IsSuffix(found.value.0, s) && IsSuffix(found.value.1, found.value.0)
      && var (from, rest) := found.value;
      && Yields(ParseValue(from), info, rest)
      && (Encode(info) == from[..|from| - |rest|] <==> Canonical(from) == Some(rest))
  {
    TailIsSuffix(s, 1);
    assert Stands(s, map[], key, None);
    LastValueStands(s, s[1..], map[], key, None);
    var (from, rest) := LastValue(s[1..], key, None).value;
    ReencodesIffCanonical(from);
    SplitOff(Encode(Get(ParseValue(s).value.0, key).value), from, rest);
  }

  lemma SplitOff(head: bytes, s: bytes, rest: bytes)
    requires IsSuffix(rest, s)
    ensures head + rest == s <==> head == s[..|s| - |rest|]
  {
    if head + rest == s {
      assert (head + rest)[..|head|] == head;
    }
    assert s == s[..|s| - |rest|] + rest;
  }

  // ---- Accessors ----

  function Get(v: Bencode, key: bytes): Result<Bencode, Error> {
    match v
    case Dict(entries) => if key in entries then Ok(entries[key]) else Err(KeyNotFound)
    case _ => Err(TypeMismatch)
  }

  function GetInt(v: Bencode, key: bytes): Result<int, Error> {
    match Get(v, key)
    case Err(e) => Err(e)
    case Ok(Int(n)) => Ok(n)
    case Ok(_) => Err(TypeMismatch)
  }

  // ---- The imperative printer and parser ----

  /** The `&mut Vec<u8>` the printer appends to. */
  class Buffer {
    var data: bytes

    constructor ()
      ensures data == []
    {
      data := [];
    }

    method Extend(more: bytes)
      modifies this
      ensures data == old(data) + more
    {
      data := data + more;
    }
  }

  method EncodeBytesInto(data: bytes, buf: Buffer)
    modifies buf
    ensures buf.data == old(buf.data) + EncodeBytes(data)
  {
    buf.Extend(Decimal(|data|));
    buf.Extend([COLON]);
    buf.Extend(data);
    Bracket(old(buf.data), Decimal(|data|), [COLON], data);
  }

  lemma Bracket(start: bytes, a: bytes, b: bytes, c: bytes)
    ensures start + a + b + c == start + (a + b + c)
  {
  }

  method EncodeInto(v: Bencode, buf: Buffer)
    modifies buf
    ensures buf.data == old(buf.data) + Encode(v)
    decreases v
  {
    match v {
      case Int(n) =>
        buf.Extend([LOWER_I]);
        buf.Extend(DecimalInt(n));
        buf.Extend([LOWER_E]);
        Bracket(old(buf.data), [LOWER_I], DecimalInt(n), [LOWER_E]);
      case Bytes(data) =>
        EncodeBytesInto(data, buf);
      case List(items) =>
        buf.Extend([LOWER_L]);
        EncodeItemsInto(items, buf);
        buf.Extend([LOWER_E]);
        Bracket(old(buf.data), [LOWER_L], EncodeItems(items), [LOWER_E]);
      case Dict(entries) =>
        buf.Extend([LOWER_D]);
        EncodeEntriesInto(v, buf);
        buf.Extend([LOWER_E]);
        Bracket(old(buf.data), [LOWER_D], EncodeEntries(v, SortedKeys(entries.Keys)), [LOWER_E]);
    }
  }

  lemma ItemsAppend(items: seq<Bencode>, i: nat)
    requires i < |items|
    ensures EncodeItems(items[..i + 1]) == EncodeItems(items[..i]) + Encode(items[i])
    decreases i
  {
    var s := items[..i + 1];
    if i == 0 {
      assert s == [items[0]] && EncodeItems(s[1..]) == [];
    } else {
      ItemsAppend(items[1..], i - 1);
      assert s[1..] == items[1..][..i];
      assert items[..i][1..] == items[1..][..i - 1];
      Reassociate(Encode(items[0]), EncodeItems(items[1..][..i - 1]), Encode(items[i]));
    }
  }

  method EncodeItemsInto(items: seq<Bencode>, buf: Buffer)
    modifies buf
    ensures buf.data == old(buf.data) + EncodeItems(items)
    decreases items, 0
  {
    for i := 0 to |items|
      invariant buf.data == old(buf.data) + EncodeItems(items[..i])
    {
      EncodeInto(items[i], buf);
      ItemsAppend(items, i);
      Reassociate(old(buf.data), EncodeItems(items[..i]), Encode(items[i]));
    }
    assert items[..|items|] == items;
  }

  lemma EntriesAppend(v: Bencode, ks: seq<bytes>, k: bytes)
    requires v.Dict? && (forall x :: x in ks ==> x in v.entries) && k in v.entries
    ensures EncodeEntries(v, ks + [k]) == EncodeEntries(v, ks) + (EncodeBytes(k) + Encode(v.entries[k]))
    decreases |ks|
  {
    if ks == [] {
      assert (ks + [k])[1..] == [];
    } else {
      EntriesAppend(v, ks[1..], k);
      assert (ks + [k])[1..] == ks[1..] + [k];
      var first, added := EncodeBytes(ks[0]) + Encode(v.entries[ks[0]]), EncodeBytes(k) + Encode(v.entries[k]);
      Reassociate(first, EncodeEntries(v, ks[1..]), added);
    }
  }

  /** The loop over a `BTreeMap`: each turn takes the least key not yet printed. */
  method EncodeEntriesInto(v: Bencode, buf: Buffer)
    requires v.Dict?
    modifies buf
    ensures buf.data == old(buf.data) + EncodeEntries(v, SortedKeys(v.entries.Keys))
    decreases v, 0
  {
    var left := v.entries.Keys;
    ghost var done: seq<bytes> := [];
    while left != {}
      invariant left <= v.entries.Keys && Ascending(done) && KeySet(done) == v.entries.Keys - left
      invariant forall x, y :: x in done && y in left ==> Less(x, y)
      invariant forall x :: x in done ==> x in v.entries
      invariant buf.data == old(buf.data) + EncodeEntries(v, done)
      decreases |left|
    {
      LeastExists(left);
      assert exists k :: k in left && forall x :: x in left && x != k ==> Less(k, x) by {
        var k :| IsLeast(k, left);
      }
      var k :| k in left && forall x :: x in left && x != k ==> Less(k, x);
      EncodeBytesInto(k, buf);
      EncodeInto(v.entries[k], buf);
      EntriesAppend(v, done, k);
      Reassociate(old(buf.data) + EncodeEntries(v, done), EncodeBytes(k), Encode(v.entries[k]));
      Reassociate(old(buf.data), EncodeEntries(v, done), EncodeBytes(k) + Encode(v.entries[k]));
      left, done := left - {k}, done + [k];
    }
    AscendingUnique(done, SortedKeys(v.entries.Keys));
  }
}
