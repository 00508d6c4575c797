/** The cursor-based parser of bencode.rs, proved against the suffix-based `ParseValue`. */
module BencodeDecoder {
  import opened Wrappers
  import opened Bytes
  import opened Bencodes

  /** A cursor method returned what the specification returns and consumed what it consumes. */
  ghost predicate Agrees<T>(r: Result<T, Error>, rest: bytes, spec: Parsed<T>) {
    match spec
    case Err(e) => r == Err(e)
    case Ok((v, after)) => r.Ok? && r.value == v && rest == after
  }

  lemma {:induction false} UntilIs(s: bytes, c: byte, i: nat)
    requires i <= |s| && c !in s[..i] && (i < |s| ==> s[i] == c)
    ensures Until(s, c) == i
  {
    if i > 0 {
      assert s[0] in s[..i];
      assert s[1..][..i - 1] == s[..i][1..];
      UntilIs(s[1..], c, i - 1);
    }
  }

  lemma {:induction false} DigitRunIs(s: bytes, i: nat)
    requires i <= |s| && AllDigits(s[..i]) && (i < |s| ==> !IsDigit(s[i]))
    ensures DigitRun(s) == i
  {
    if i > 0 {
      assert s[..i][0] == s[0];
      assert s[1..][..i - 1] == s[..i][1..];
      DigitRunIs(s[1..], i - 1);
    }
  }

  class Decoder {
    const input: bytes
    var position: nat

    ghost predicate Valid()
      reads this
    {
      position <= |input|
    }

    ghost function Rest(): bytes
      reads this
      requires Valid()
    {
      input[position..]
    }

    constructor (data: bytes)
      ensures Valid() && input == data && Rest() == data
    {
      input := data;
      position := 0;
    }

    method ParseInt() returns (r: Result<Bencode, Error>)
      requires Valid() && position < |input| && input[position] == LOWER_I
      modifies this
      ensures Valid() && position > old(position)
      ensures Agrees(r, Rest(), Bencodes.ParseInt(old(Rest())))
    {
      ghost var t := Rest()[1..];
      position := position + 1;
      var start := position;
      while position < |input| && input[position] != LOWER_E
        invariant start <= position <= |input|
        invariant LOWER_E !in input[start..position]
      {
        position := position + 1;
      }
      ghost var k := position - start;
      assert t[..k] == input[start..position];
      UntilIs(t, LOWER_E, k);
      if position == |input| {
        return Err(UnexpectedEof);
      }
      var lexeme := input[start..position];
      if !AdmittedInt(lexeme) {
        return Err(InvalidInteger);
      }
      var value := ParseI64(lexeme);
      if value == None {
        return Err(InvalidInteger);
      }
      position := position + 1;
      assert t[k + 1..] == Rest();
      return Ok(Int(value.value));
    }

    method ParseLen() returns (r: Result<nat, Error>)
      requires Valid()
      modifies this
      ensures Valid() && position >= old(position)
      ensures Agrees(r, Rest(), Bencodes.ParseLen(old(Rest())))
    {
      ghost var s := Rest();
      var start := position;
      while position < |input| && IsDigit(input[position])
        invariant start <= position <= |input|
        invariant AllDigits(input[start..position])
      {
        assert input[start..position + 1] == input[start..position] + [input[position]];
        position := position + 1;
      }
      ghost var k := position - start;
      assert s[..k] == input[start..position];
      DigitRunIs(s, k);
      if position == |input| {
        return Err(UnexpectedEof);
      }
      if input[position] != COLON {
        return Err(InvalidStringLength);
      }
      var len := ParseUsize(input[start..position]);
      if len == None {
        return Err(InvalidStringLength);
      }
      position := position + 1;
      assert s[k + 1..] == Rest();
      return Ok(len.value);
    }

    method ParseByteString() returns (r: Result<bytes, Error>)
      requires Valid()
      modifies this
      ensures Valid() && position >= old(position)
      ensures Agrees(r, Rest(), Bencodes.ParseByteString(old(Rest())))
      ensures r.Ok? ==> position > old(position)
    {
      var len := ParseLen();
      if len.Err? {
        return Err(len.error);
      }
      if len.value > |input| - position {
        return Err(UnexpectedEof);
      }
      ghost var afterLen := Rest();
      var start := position;
      position := position + len.value;
      assert afterLen[..len.value] == input[start..position] && afterLen[len.value..] == Rest();
      return Ok(input[start..position]);
    }

    /** `Decoder::parse`: terminates because every turn leaves fewer bytes. */
    method Parse() returns (r: Result<Bencode, Error>)
      requires Valid()
      modifies this
      ensures Valid() && position >= old(position)
      ensures Agrees(r, Rest(), ParseValue(old(Rest())))
      ensures r.Ok? ==> position > old(position)
      decreases |input| - position, 1
    {
      if position == |input| {
        return Err(UnexpectedEof);
      }
      var byte := input[position];
      if byte == LOWER_I {
        r := ParseInt();
      } else if byte == LOWER_L {
        r := ParseList();
      } else if byte == LOWER_D {
        r := ParseDict();
      } else if IsDigit(byte) {
        var data := ParseByteString();
        r := match data case Err(e) => Err(e) case Ok(d) => Ok(Bytes(d));
      } else {
        r := Err(InvalidToken(byte));
      }
    }

    method ParseList() returns (r: Result<Bencode, Error>)
      requires Valid() && position < |input| && input[position] == LOWER_L
      modifies this
      ensures Valid() && position > old(position)
      ensures Agrees(r, Rest(), ParseValue(old(Rest())))
      decreases |input| - position, 0
    {
      ghost var s := Rest();
      position := position + 1;
      var elements: seq<Bencode> := [];
      assert Rest() == s[1..];
      while position < |input| && input[position] != LOWER_E
        invariant Valid() && position > old(position)
        invariant ParseItems(s[1..], []) == ParseItems(Rest(), elements)
        decreases |input| - position
      {
        var element := Parse();
        if element.Err? {
          return Err(element.error);
        }
        elements := elements + [element.value];
      }
      if position == |input| {
        return Err(UnexpectedEof);
      }
      ghost var last := Rest();
      position := position + 1;
      assert Rest() == last[1..];
      return Ok(List(elements));
    }

    method ParseDict() returns (r: Result<Bencode, Error>)
      requires Valid() && position < |input| && input[position] == LOWER_D
      modifies this
      ensures Valid() && position > old(position)
      ensures Agrees(r, Rest(), ParseValue(old(Rest())))
      decreases |input| - position, 0
    {
      ghost var s := Rest();
      position := position + 1;
      var dict: map<bytes, Bencode> := map[];
      assert Rest() == s[1..];
      while position < |input| && input[position] != LOWER_E
        invariant Valid() && position > old(position)
        invariant ParseEntries(s[1..], map[]) == ParseEntries(Rest(), dict)
        decreases |input| - position
      {
        var key := ParseByteString();
        if key.Err? {
          return Err(InvalidDictKey);
        }
        var value := Parse();
        if value.Err? {
          return Err(value.error);
        }
        dict := dict[key.value := value.value];
      }
      if position == |input| {
        return Err(UnexpectedEof);
      }
      ghost var last := Rest();
      position := position + 1;
      assert Rest() == last[1..];
      return Ok(Dict(dict));
    }
  }

  /** `Bencode::decode_with_rest`. */
  method DecodeWithRest(data: bytes) returns (r: Result<(Bencode, bytes), Error>)
    ensures r == ParseValue(data)
  {
    var decoder := new Decoder(data);
    var value := decoder.Parse();
    match value {
      case Err(e) => r := Err(e);
      case Ok(v) => r := Ok((v, data[decoder.position..]));
    }
  }
}
