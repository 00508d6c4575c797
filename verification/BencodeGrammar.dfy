/** Bencode byte by byte: exactly which inputs the parser accepts, and what the printer writes (bencode.rs). */
module BencodeGrammar {
  import opened Wrappers
  import opened Bytes
  import opened Bencodes

  // ---- The language, in the bytes of its standard ----

  ghost predicate Digits(s: bytes) {
    s != [] && forall i :: 0 <= i < |s| ==> 48 <= s[i] <= 57
  }

  /** The number a run of decimal digits denotes. */
  ghost function Number(s: bytes): int {
    if s == [] then 0 else Number(s[..|s| - 1]) * 10 + (s[|s| - 1] as int - 48)
  }

  /** Between `i` and `e`: no superfluous zero, no negative zero, but a plus sign and zeros after it; 64 bits. */
  ghost predicate IntText(text: bytes, n: int) {
    && -0x8000_0000_0000_0000 <= n < 0x8000_0000_0000_0000
    && (|| (Digits(text) && (text[0] == 48 ==> |text| == 1) && n == Number(text))
        || (text != [] && text[0] == 45 && Digits(text[1..]) && text[1] != 48 && n == -Number(text[1..]))
        || (text != [] && text[0] == 43 && Digits(text[1..]) && n == Number(text[1..])))
  }

  ghost predicate IntAs(s: bytes, n: int, rest: bytes, text: bytes) {
    s == [105] + text + [101] + rest && IntText(text, n)
  }

  /** The length in decimal, zeros in front allowed, a colon, and as many bytes. */
  ghost predicate StringAs(s: bytes, data: bytes, rest: bytes, length: bytes) {
    s == length + [58] + data + rest && Digits(length) && Number(length) == |data| < 0x1_0000_0000_0000_0000
  }

  ghost predicate ReadsString(s: bytes, data: bytes, rest: bytes) {
    exists length :: StringAs(s, data, rest, length)
  }

  /** `s` is a text of the value followed by `rest`. */
  ghost predicate Reads(s: bytes, v: Bencode, rest: bytes)
    decreases |s|, 0
  {
    match v
    case Int(n) => exists text :: IntAs(s, n, rest, text)
    case Bytes(data) => ReadsString(s, data, rest)
    case List(items) => s != [] && s[0] == 108 && ReadsItems(s[1..], items, rest)
    case Dict(entries) => s != [] && s[0] == 100 && ReadsEntries(s[1..], map[], entries, rest)
  }

  ghost predicate ReadsItems(s: bytes, items: seq<Bencode>, rest: bytes)
    decreases |s|, 1
  {
    if items == [] then s == [101] + rest
    else
      exists between: bytes :: |between| < |s| && Reads(s, items[0], between) && ReadsItems(between, items[1..], rest)
  }

  /** Entries in any order; the last one of a key counts. */
  ghost predicate ReadsEntries(s: bytes, before: map<bytes, Bencode>, entries: map<bytes, Bencode>, rest: bytes)
    decreases |s|, 1
  {
    || (s == [101] + rest && entries == before)
    || exists k, v, afterKey: bytes, between: bytes ::
         EntryAs(s, k, v, afterKey, between) && ReadsEntries(between, before[k := v], entries, rest)
  }

  ghost predicate EntryAs(s: bytes, k: bytes, v: Bencode, afterKey: bytes, between: bytes)
    decreases |s|, 0
  {
    |between| < |afterKey| < |s| && ReadsString(s, k, afterKey) && Reads(afterKey, v, between)
  }

  // ---- Numbers ----

  lemma {:induction false} NumberIs(s: bytes)
    ensures AllDigits(s) <==> forall i :: 0 <= i < |s| ==> 48 <= s[i] <= 57
    ensures AllDigits(s) ==> Number(s) == DigitsValue(s)
  {
    if s != [] && AllDigits(s) {
      NumberIs(s[..|s| - 1]);
    }
  }

  lemma IntTextIs(text: bytes, n: int)
    ensures IntText(text, n) <==> AdmittedInt(text) && ParseI64(text) == Some(n)
  {
    NumberIs(text);
    if text != [] {
      NumberIs(text[1..]);
    }
    hide DigitsValue, Number;
  }

  lemma TextHasNoEnd(text: bytes, n: int)
    requires IntText(text, n)
    ensures LOWER_E !in text
  {
    forall i | 0 <= i < |text| ensures text[i] != LOWER_E {
      if text[0] == 45 || text[0] == 43 {
        assert i > 0 ==> text[i] == text[1..][i - 1];
      }
    }
  }

  lemma IntIsParsed(s: bytes, n: int, rest: bytes, text: bytes)
    requires IntAs(s, n, rest, text)
    ensures s != [] && s[0] == 105 && ParseInt(s) == Ok((Int(n), rest))
  {
    hide AdmittedInt, ParseI64, IntText, ParseInt;
    IntTextIs(text, n);
    TextHasNoEnd(text, n);
    ParseIntAt(text, n, rest);
    Reassociate([105], text, [101]);
    Reassociate([105], text + [101], rest);
  }

  lemma ParsedIsInt(s: bytes, n: int, rest: bytes) returns (text: bytes)
    requires s != [] && s[0] == 105 && ParseInt(s) == Ok((Int(n), rest))
    ensures IntAs(s, n, rest, text)
  {
    hide AdmittedInt, ParseI64, IntText, Until;
    text := s[1..][..Until(s[1..], LOWER_E)];
    IntTextIs(text, n);
    UntilSplits(s[1..], LOWER_E);
    assert s == [105] + s[1..];
    Reassociate([105], text, [101]);
    Reassociate([105], text + [101], rest);
  }

  /** Integers. */
  lemma IntReadsIff(s: bytes, n: int, rest: bytes)
    ensures (exists text :: IntAs(s, n, rest, text)) <==> s != [] && s[0] == 105 && ParseInt(s) == Ok((Int(n), rest))
  {
    hide IntAs, ParseInt;
    if text :| IntAs(s, n, rest, text) {
      IntIsParsed(s, n, rest, text);
    }
    if s != [] && s[0] == 105 && ParseInt(s) == Ok((Int(n), rest)) {
      var text := ParsedIsInt(s, n, rest);
    }
  }

  lemma LengthRead(length: bytes, tail: bytes, n: nat)
    requires Digits(length) && Number(length) == n < 0x1_0000_0000_0000_0000
    ensures ParseLen(length + [58] + tail) == Ok((n, tail))
  {
    NumberIs(length);
    DigitRunAt(length, COLON, tail);
    var s := length + [58] + tail;
    assert s[..|length|] == length && s[|length| + 1..] == tail;
    hide Number, DigitsValue, DigitRun;
  }

  lemma LengthIsRead(s: bytes) returns (length: bytes)
    requires ParseLen(s).Ok?
    ensures Digits(length) && Number(length) == ParseLen(s).value.0 && s == length + [58] + ParseLen(s).value.1
  {
    length := s[..DigitRun(s)];
    NumberIs(length);
    hide Number, DigitsValue, DigitRun;
  }

  /** Byte strings. */
  lemma StringReadsIff(s: bytes, data: bytes, rest: bytes)
    ensures ReadsString(s, data, rest) <==> ParseByteString(s) == Ok((data, rest))
  {
    hide ParseLen, Digits, Number;
    if ReadsString(s, data, rest) {
      var length :| StringAs(s, data, rest, length);
      LengthRead(length, data + rest, |data|);
      assert s == length + [58] + (data + rest);
    }
    if ParseByteString(s) == Ok((data, rest)) {
      var length := LengthIsRead(s);
      assert s == length + [58] + data + rest;
      assert StringAs(s, data, rest, length);
    }
  }

  lemma StringStarts(s: bytes, data: bytes, rest: bytes)
    requires ReadsString(s, data, rest)
    ensures s != [] && IsDigit(s[0])
  {
    var length :| StringAs(s, data, rest, length);
    assert s[0] == length[0];
  }

  // ---- Exactly these inputs ----

  /** The parser accepts an input exactly if it is a text of a value, and then returns that value and what follows. */
  lemma {:induction false} ReadsIffParsed(s: bytes, v: Bencode, rest: bytes)
    ensures Reads(s, v, rest) <==> ParseValue(s) == Ok((v, rest))
    decreases |s|, 0
  {
    hide ParseInt, ParseByteString, ReadsString, ParseItems, ParseEntries, ReadsItems, ReadsEntries;
    match v {
      case Int(n) => IntReadsIff(s, n, rest);
      case Bytes(data) =>
        StringReadsIff(s, data, rest);
        if ReadsString(s, data, rest) {
          StringStarts(s, data, rest);
        }
      case List(items) =>
        if s != [] && s[0] == 108 {
          ItemsReadIff(s[1..], [], items, rest);
          assert [] + items == items;
        }
      case Dict(entries) =>
        if s != [] && s[0] == 100 {
          EntriesReadIff(s[1..], map[], entries, rest);
        }
    }
    IntIsInt(s);
  }

  lemma IntIsInt(s: bytes)
    ensures s != [] && s[0] == LOWER_I && ParseInt(s).Ok? ==> ParseInt(s).value.0.Int?
  {
  }

  lemma {:induction false} ItemsReadIff(s: bytes, before: seq<Bencode>, items: seq<Bencode>, rest: bytes)
    ensures ReadsItems(s, items, rest) <==> ParseItems(s, before) == Ok((before + items, rest))
    decreases |s|, 1
  {
    hide ParseValue, Reads;
    if s != [] && s[0] != 101 {
      if items != [] && ReadsItems(s, items, rest) {
        var between: bytes :| |between| < |s| && Reads(s, items[0], between) && ReadsItems(between, items[1..], rest);
        ReadsIffParsed(s, items[0], between);
        ItemsReadIff(between, before + [items[0]], items[1..], rest);
        assert before + [items[0]] + items[1..] == before + items;
      }
      if ParseItems(s, before) == Ok((before + items, rest)) {
        var Ok((v, between)) := ParseValue(s);
        ReadsIffParsed(s, v, between);
        ItemsGrow(between, before + [v]);
        HeadOf(before, v, items);
        ItemsReadIff(between, before + [v], items[1..], rest);
      }
    } else {
      if items != [] {
        EndIsNoValue(s, items, rest);
      }
      assert before + items == before <==> items == [] by {
        assert |before + items| == |before| + |items|;
      }
    }
  }

  lemma HeadOf(before: seq<Bencode>, v: Bencode, items: seq<Bencode>)
    requires before + [v] <= before + items
    ensures items != [] && items[0] == v && before + [v] + items[1..] == before + items
  {
    assert (before + items)[|before|] == (before + [v])[|before|];
  }

  lemma EndIsNoValue(s: bytes, items: seq<Bencode>, rest: bytes)
    requires items != [] && (s == [] || s[0] == 101)
    ensures !ReadsItems(s, items, rest)
  {
  }

  lemma {:induction false} ItemsGrow(s: bytes, before: seq<Bencode>)
    requires ParseItems(s, before).Ok?
    ensures before <= ParseItems(s, before).value.0
    decreases |s|
  {
    if s[0] != LOWER_E {
      var Ok((v, rest)) := ParseValue(s);
      ItemsGrow(rest, before + [v]);
    }
  }

  lemma {:induction false} EntriesReadIff(s: bytes, before: map<bytes, Bencode>, entries: map<bytes, Bencode>,
                                          rest: bytes)
    ensures ReadsEntries(s, before, entries, rest) <==> ParseEntries(s, before) == Ok((entries, rest))
    decreases |s|, 1
  {
    hide ParseValue, ParseByteString, Reads, ReadsString, EntryAs, ParseEntries;
    if s == [] || s[0] == 101 {
      EndIsParsed(s, before);
      EndIsNoEntry(s);
    } else {
      EntryIsParsed(s, before);
      if ReadsEntries(s, before, entries, rest) {
        assert s != [101] + rest;
        var k, v, afterKey, between := FirstEntry(s, before, entries, rest);
        EntryIff(s, k, v, afterKey, between);
        EntriesReadIff(between, before[k := v], entries, rest);
      }
      if ParseEntries(s, before) == Ok((entries, rest)) {
        var Ok((k, afterKey)) := ParseByteString(s);
        var Ok((v, between)) := ParseValue(afterKey);
        EntryIff(s, k, v, afterKey, between);
        EntriesReadIff(between, before[k := v], entries, rest);
      }
    }
  }

  lemma FirstEntry(s: bytes, before: map<bytes, Bencode>, entries: map<bytes, Bencode>, rest: bytes)
      returns (k: bytes, v: Bencode, afterKey: bytes, between: bytes)
    requires ReadsEntries(s, before, entries, rest) && s != [101] + rest
    ensures EntryAs(s, k, v, afterKey, between) && ReadsEntries(between, before[k := v], entries, rest)
  {
    hide EntryAs;
    k, v, afterKey, between :|
      EntryAs(s, k, v, afterKey, between) && ReadsEntries(between, before[k := v], entries, rest);
  }

  lemma EndIsParsed(s: bytes, before: map<bytes, Bencode>)
    requires s == [] || s[0] == 101
    ensures if s == [] then ParseEntries(s, before).Err? else ParseEntries(s, before) == Ok((before, s[1..]))
  {
  }

  lemma EntryIsParsed(s: bytes, before: map<bytes, Bencode>)
    requires s != [] && s[0] != 101
    ensures ParseEntries(s, before).Ok? ==> ParseByteString(s).Ok? && ParseValue(ParseByteString(s).value.1).Ok?
    ensures ParseByteString(s).Ok? && ParseValue(ParseByteString(s).value.1).Ok? ==>
      var Ok((k, afterKey)) := ParseByteString(s);
      var Ok((v, between)) := ParseValue(afterKey);
      ParseEntries(s, before) == ParseEntries(between, before[k := v])
  {
  }

  lemma EndIsNoEntry(s: bytes)
    requires s == [] || s[0] == 101
    ensures forall k, v, afterKey: bytes, between: bytes :: !EntryAs(s, k, v, afterKey, between)
  {
    forall k, v, afterKey: bytes, between: bytes ensures !EntryAs(s, k, v, afterKey, between) {
      if ReadsString(s, k, afterKey) {
        StringStarts(s, k, afterKey);
      }
    }
  }

  lemma {:induction false} EntryIff(s: bytes, k: bytes, v: Bencode, afterKey: bytes, between: bytes)
    ensures EntryAs(s, k, v, afterKey, between)
      <==> && |between| < |afterKey| < |s|
           && ParseByteString(s) == Ok((k, afterKey)) && ParseValue(afterKey) == Ok((v, between))
    decreases |s|, 0
  {
    hide ParseValue, ParseByteString, Reads, ReadsString;
    StringReadsIff(s, k, afterKey);
    if |afterKey| < |s| {
      ReadsIffParsed(afterKey, v, between);
    }
  }

  // ---- How other inputs are refused ----

  /** An integer without its end is cut off; one with a text that denotes no number is refused as such. */
  lemma RefusedInt(text: bytes, rest: bytes)
    requires 101 !in text
    ensures ParseValue([105] + text) == Err(UnexpectedEof)
    ensures (forall n :: !IntText(text, n)) ==> ParseValue([105] + text + [101] + rest) == Err(InvalidInteger)
  {
    var cut, whole := [105] + text, [105] + text + [101] + rest;
    UntilAt(text, 101, rest);
    assert cut[1..] == text && whole[1..] == text + [101] + rest;
    assert (text + [101] + rest)[..|text|] == text;
    NoEnd(text);
    if ParseI64(text).Some? && AdmittedInt(text) {
      IntTextIs(text, ParseI64(text).value);
    }
    hide IntText, AdmittedInt, ParseI64, Until;
  }

  lemma {:induction false} NoEnd(text: bytes)
    requires 101 !in text
    ensures Until(text, 101) == |text|
  {
    if text != [] {
      assert text[0] in text;
      assert forall i :: 0 <= i < |text[1..]| ==> text[1..][i] == text[i + 1];
      NoEnd(text[1..]);
    }
  }

  /** A string is refused for a length without its colon, or of more than 64 bits, and cut off if it is too short. */
  lemma RefusedString(length: bytes, next: byte, tail: bytes)
    requires Digits(length) && !(48 <= next <= 57)
    ensures ParseByteString(length) == Err(UnexpectedEof)
    ensures next != 58 ==> ParseByteString(length + [next] + tail) == Err(InvalidStringLength)
    ensures next == 58 && Number(length) >= 0x1_0000_0000_0000_0000 ==>
      ParseByteString(length + [next] + tail) == Err(InvalidStringLength)
    ensures next == 58 && |tail| < Number(length) < 0x1_0000_0000_0000_0000 ==>
      ParseByteString(length + [next] + tail) == Err(UnexpectedEof)
  {
    var s := length + [next] + tail;
    NumberIs(length);
    DigitRunAt(length, next, tail);
    AllRun(length);
    assert s[..|length|] == length && s[|length| + 1..] == tail;
    hide Number, DigitsValue, DigitRun;
  }

  lemma {:induction false} AllRun(s: bytes)
    requires AllDigits(s)
    ensures DigitRun(s) == |s|
  {
    if s != [] {
      AllRun(s[1..]);
    }
  }

  /**
   * Nothing is cut off, another first byte is no value, and a list or dictionary without its end is cut off. The
   * first value in it that is refused gives the reason; a key that is refused is an invalid key.
   */
  lemma RefusedElsewhere(s: bytes, items: seq<Bencode>, entries: map<bytes, Bencode>)
    ensures ParseValue([]) == Err(UnexpectedEof)
    ensures s != [] && s[0] !in {105, 108, 100} && !(48 <= s[0] <= 57) ==> ParseValue(s) == Err(InvalidToken(s[0]))
    ensures ParseItems([], items) == Err(UnexpectedEof) && ParseEntries([], entries) == Err(UnexpectedEof)
    ensures s != [] && s[0] != 101 && ParseValue(s).Err? ==> ParseItems(s, items) == Err(ParseValue(s).error)
    ensures s != [] && s[0] != 101 && ParseByteString(s).Err? ==> ParseEntries(s, entries) == Err(InvalidDictKey)
    ensures s != [] && s[0] != 101 && ParseByteString(s).Ok? && ParseValue(ParseByteString(s).value.1).Err? ==>
      ParseEntries(s, entries) == Err(ParseValue(ParseByteString(s).value.1).error)
  {
    hide ParseInt, ParseByteString;
  }

  // ---- What is written ----

  ghost function Numeral(n: nat): bytes {
    if n < 10 then [48 + n] else Numeral(n / 10) + [48 + n % 10]
  }

  ghost function StringText(data: bytes): bytes {
    Numeral(|data|) + [58] + data
  }

  /** The text of a value: dictionaries in ascending order of their keys. */
  ghost function Text(v: Bencode): bytes
    decreases v, 1, 0
  {
    match v
    case Int(n) => [105] + (if n < 0 then [45] + Numeral(-n) else Numeral(n)) + [101]
    case Bytes(data) => StringText(data)
    case List(items) => [108] + ItemsText(items) + [101]
    case Dict(entries) => [100] + EntriesText(v, SortedKeys(entries.Keys)) + [101]
  }

  ghost function ItemsText(items: seq<Bencode>): bytes
    decreases items, 0, 0
  {
    if items == [] then [] else Text(items[0]) + ItemsText(items[1..])
  }

  ghost function EntriesText(v: Bencode, ks: seq<bytes>): bytes
    requires v.Dict? && forall k :: k in ks ==> k in v.entries
    decreases v, 0, |ks|
  {
    if ks == [] then [] else StringText(ks[0]) + Text(v.entries[ks[0]]) + EntriesText(v, ks[1..])
  }

  lemma {:induction false} NumeralIs(n: nat)
    ensures Numeral(n) == Decimal(n)
  {
    if n >= 10 {
      NumeralIs(n / 10);
    }
  }

  lemma {:induction false} ItemsAsText(items: seq<Bencode>)
    ensures EncodeItems(items) == ItemsText(items)
    decreases items, 0, 0
  {
    if items != [] {
      PrintsText(items[0]);
      ItemsAsText(items[1..]);
    }
  }

  lemma {:induction false} EntriesAsText(v: Bencode, ks: seq<bytes>)
    requires v.Dict? && forall k :: k in ks ==> k in v.entries
    ensures EncodeEntries(v, ks) == EntriesText(v, ks)
    decreases v, 0, |ks|
  {
    if ks != [] {
      NumeralIs(|ks[0]|);
      PrintsText(v.entries[ks[0]]);
      EntriesAsText(v, ks[1..]);
    }
  }

  /** The printer writes that text. */
  lemma {:induction false} PrintsText(v: Bencode)
    ensures Encode(v) == Text(v)
    decreases v, 1, 0
  {
    match v
    case Int(n) => NumeralIs(if n < 0 then -n else n);
    case Bytes(data) => NumeralIs(|data|);
    case List(items) => ItemsAsText(items);
    case Dict(entries) => EntriesAsText(v, SortedKeys(entries.Keys));
  }

  /** What is written is read back, whatever follows. */
  lemma TextIsRead(v: Bencode, rest: bytes)
    requires WellFormed(v)
    ensures Reads(Text(v) + rest, v, rest) && ParseValue(Text(v) + rest) == Ok((v, rest))
  {
    PrintsText(v);
    PrintThenParse(v, rest);
    hide Text, Encode, ParseValue, Reads;
    ReadsIffParsed(Text(v) + rest, v, rest);
  }
}
