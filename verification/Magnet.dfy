/** Base32 info hashes of magnet links (magnet.rs), section 6 of RFC 4648. */
module Magnet {
  import opened Wrappers
  import opened Bytes

  /** `to_ascii_uppercase`. */
  function Upper(b: byte): byte {
    if 97 <= b <= 122 then b - 32 else b
  }

  /** The letter of a digit: `A` to `Z`, then `2` to `7`. */
  function Letter(d: nat): byte
    requires d < 32
  {
    if d < 26 then 65 + d else 50 + (d - 26)
  }

  /** Position of an upper-case letter in the alphabet. */
  function Position(b: byte): (r: Option<nat>)
    ensures r.Some? <==> exists d: nat :: d < 32 && Letter(d) == b
    ensures r.Some? ==> r.value < 32 && Letter(r.value) == b
  {
    if 65 <= b <= 90 then assert Letter((b - 65) as nat) == b; Some(b - 65)
    else if 50 <= b <= 55 then assert Letter((b - 50 + 26) as nat) == b; Some(b - 50 + 26)
    else None
  }

  function Digit(b: byte): Option<nat> { Position(Upper(b)) }

  /** The digits are the letters, in either case, and then the numerals from two to seven. */
  lemma AlphabetIs(b: byte, d: nat)
    requires d < 32
    ensures Digit(b) == Some(d)
      <==> || (d < 26 && (b == 'A' as int + d || b == 'a' as int + d))
           || (d >= 26 && b == '2' as int + (d - 26))
  {
    if Digit(b) == Some(d) {
      assert Letter(d) == Upper(b);
    }
  }

  predicate Valid(s: bytes) { forall i :: 0 <= i < |s| ==> Digit(s[i]).Some? }

  function Pow2(k: nat): (p: nat)
    ensures p > 0
  {
    if k == 0 then 1 else 2 * Pow2(k - 1)
  }

  /** `word >> count`. */
  function Shr(word: nat, count: nat): nat {
    if count == 0 then word else Shr(word / 2, count - 1)
  }

  /** `word & ((1 << count) - 1)`. */
  function Low(word: nat, count: nat): nat {
    if count == 0 then 0 else Low(word / 2, count - 1) * 2 + word % 2
  }

  /** The two halves of a word cut at bit `count`. */
  lemma {:induction false} Cut(word: nat, count: nat)
    ensures word == Shr(word, count) * Pow2(count) + Low(word, count)
    ensures Low(word, count) < Pow2(count)
  {
    if count > 0 {
      Cut(word / 2, count - 1);
      Double(Shr(word / 2, count - 1), Pow2(count - 1));
    }
  }

  lemma Double(a: nat, b: nat)
    ensures a * (2 * b) == 2 * (a * b)
  {
  }

  lemma {:induction false} ShrOf(high: nat, count: nat, low: nat)
    requires low < Pow2(count)
    ensures Shr(high * Pow2(count) + low, count) == high
  {
    if count > 0 {
      Double(high, Pow2(count - 1));
      assert (high * Pow2(count) + low) / 2 == high * Pow2(count - 1) + low / 2;
      ShrOf(high, count - 1, low / 2);
    }
  }

  /** The number a base-32 string writes, most significant digit first. */
  function Value32(s: bytes): nat
    requires Valid(s)
  {
    if s == [] then 0 else Value32(s[..|s| - 1]) * 32 + Digit(s[|s| - 1]).value
  }

  /** The number a byte string writes, most significant byte first. */
  function Value256(s: bytes): nat {
    if s == [] then 0 else Value256(s[..|s| - 1]) * 256 + s[|s| - 1]
  }

  lemma Powers()
    ensures Pow2(0) == 1 && Pow2(1) == 2 && Pow2(2) == 4 && Pow2(3) == 8
    ensures Pow2(4) == 16 && Pow2(5) == 32 && Pow2(6) == 64 && Pow2(7) == 128
  {
  }

  /** One turn that only accumulates five more bits. */
  lemma Shift(high: nat, count: nat, bits: nat, digit: nat)
    requires count < 3 && bits < Pow2(count) && digit < 32
    ensures high * Pow2(count + 5) + (bits * 32 + digit) == (high * Pow2(count) + bits) * 32 + digit
    ensures bits * 32 + digit < Pow2(count + 5) <= 128
  {
    Powers();
  }

  /** One turn that also moves eight bits to the output. */
  lemma ShiftOut(high: nat, count: nat, bits: nat, digit: nat)
    requires 3 <= count < 8 && bits < Pow2(count) && digit < 32
    ensures var (word, left) := (bits * 32 + digit, Pow2(count - 3));
      word < 4096 && Shr(word, count - 3) < 256
      && (high * 256 + Shr(word, count - 3)) * left + Low(word, count - 3) == (high * Pow2(count) + bits) * 32 + digit
  {
    var word, left := bits * 32 + digit, Pow2(count - 3);
    Cut(word, count - 3);
    assert Pow2(count) == 8 * left && left in {1, 2, 4, 8, 16} by { Powers(); }
    Carry(high, Shr(word, count - 3), left, Low(word, count - 3), bits, digit);
  }

  lemma Carry(high: nat, out: nat, left: nat, low: nat, bits: nat, digit: nat)
    requires left in {1, 2, 4, 8, 16} && bits * 32 + digit == out * left + low
    requires bits < 8 * left && digit < 32
    ensures out < 256 && (high * 256 + out) * left + low == (high * (8 * left) + bits) * 32 + digit
  {
    if left == 1 {
    } else if left == 2 {
    } else if left == 4 {
    } else if left == 8 {
    } else {
      assert left == 16;
    }
  }

  /** What the loop holds after reading `prefix`: the number read so far, split at a byte boundary. */
  ghost predicate Held(prefix: bytes, output: bytes, count: nat, bits: nat) {
    && Valid(prefix) && count < 8 && bits < Pow2(count)
    && 8 * |output| + count == 5 * |prefix|
    && Value256(output) * Pow2(count) + bits == Value32(prefix)
  }

  lemma ReadDigit(prefix: bytes, b: byte)
    requires Valid(prefix) && Digit(b).Some?
    ensures Valid(prefix + [b]) && Value32(prefix + [b]) == Value32(prefix) * 32 + Digit(b).value
  {
    assert (prefix + [b])[..|prefix|] == prefix;
  }

  lemma HeldShift(prefix: bytes, b: byte, output: bytes, count: nat, bits: nat)
    requires Held(prefix, output, count, bits) && Digit(b).Some? && count < 3
    ensures Held(prefix + [b], output, count + 5, bits * 32 + Digit(b).value)
  {
    ReadDigit(prefix, b);
    Shift(Value256(output), count, bits, Digit(b).value);
  }

  lemma HeldShiftOut(prefix: bytes, b: byte, output: bytes, count: nat, bits: nat)
    requires Held(prefix, output, count, bits) && Digit(b).Some? && count >= 3
    ensures var word := bits * 32 + Digit(b).value;
      word < 4096 && Shr(word, count - 3) < 256
      && Held(prefix + [b], output + [Shr(word, count - 3)], count - 3, Low(word, count - 3))
  {
    ReadDigit(prefix, b);
    ShiftOut(Value256(output), count, bits, Digit(b).value);
    Cut(bits * 32 + Digit(b).value, count - 3);
    var next := Shr(bits * 32 + Digit(b).value, count - 3);
    assert (output + [next])[..|output|] == output;
  }

  /** The output is the value read, without the bits that do not fill a byte. */
  lemma HeldQuotient(s: bytes, output: bytes, count: nat, bits: nat)
    requires Held(s, output, count, bits)
    ensures Valid(s) && count == 5 * |s| % 8 && |output| == 5 * |s| / 8
    ensures Value256(output) == Shr(Value32(s), count)
  {
    hide Value256, Value32, Valid, Pow2;
    ShrOf(Value256(output), count, bits);
    WholeBytes(|s|, |output|, count);
  }

  lemma WholeBytes(chars: nat, bytes: nat, count: nat)
    requires 8 * bytes + count == 5 * chars && count < 8
    ensures count == 5 * chars % 8 && bytes == 5 * chars / 8
  {
  }

  lemma HeldStart()
    ensures Held([], [], 0, 0)
  {
  }

  lemma NotValid(s: bytes, i: nat)
    requires i < |s| && Digit(s[i]) == None
    ensures !Valid(s)
  {
  }

  /**
   * `base32_decode`. The accumulator never leaves `u32`: it holds fewer than 12 bits, so shifting
   * it by five and or-ing a digit is `bits * 32 + digit`.
   */
  method Base32Decode(s: bytes) returns (r: Option<bytes>)
    ensures r.Some? <==> Valid(s)
    ensures r.Some? ==> |r.value| == 5 * |s| / 8 && Value256(r.value) == Shr(Value32(s), 5 * |s| % 8)
  {
    var bits: nat, bitCount: nat := 0, 0;
    var output: bytes := [];
    hide Held, Value256, Value32, Valid, Digit, Shr, Low;
    HeldStart();
    assert s[..0] == [];
    for i := 0 to |s|
      invariant bitCount < 8
      invariant Held(s[..i], output, bitCount, bits)
    {
      var digit := Digit(s[i]);
      if digit == None {
        NotValid(s, i);
        return None;
      }
      assert s[..i + 1] == s[..i] + [s[i]];
      ghost var count0, bits0 := bitCount, bits;
      bits := bits * 32 + digit.value;
      bitCount := bitCount + 5;
      if bitCount >= 8 {
        HeldShiftOut(s[..i], s[i], output, count0, bits0);
        bitCount := bitCount - 8;
        output := output + [Shr(bits, bitCount)];
        bits := Low(bits, bitCount);
      } else {
        HeldShift(s[..i], s[i], output, count0, bits0);
      }
    }
    assert s[..|s|] == s;
    HeldQuotient(s, output, bitCount, bits);
    r := Some(output);
  }

  // ---- The standard encoder, and that decoding inverts it ----

  /** Eight digits from five bytes, the bit groups of RFC 4648. */
  function Group(g: bytes): (r: seq<nat>)
    requires |g| == 5
    ensures |r| == 8 && forall i :: 0 <= i < 8 ==> r[i] < 32
  {
    [ g[0] / 8,
      g[0] % 8 * 4 + g[1] / 64,
      g[1] / 2 % 32,
      g[1] % 2 * 16 + g[2] / 16,
      g[2] % 16 * 2 + g[3] / 128,
      g[3] / 4 % 32,
      g[3] % 4 * 8 + g[4] / 32,
      g[4] % 32 ]
  }

  function Letters(ds: seq<nat>): (r: bytes)
    requires forall i :: 0 <= i < |ds| ==> ds[i] < 32
    ensures |r| == |ds|
  {
    seq(|ds|, i requires 0 <= i < |ds| => Letter(ds[i]))
  }

  /** Unpadded base 32 of whole groups; an info hash has four of them. */
  function Base32Encode(data: bytes): (r: bytes)
    requires |data| % 5 == 0
    ensures |r| == |data| / 5 * 8
  {
    if data == [] then [] else Base32Encode(data[..|data| - 5]) + Letters(Group(data[|data| - 5..]))
  }

  lemma LetterDigit(d: nat)
    requires d < 32
    ensures Digit(Letter(d)) == Some(d)
  {
  }

  ghost predicate Digits(ds: seq<nat>) { forall i :: 0 <= i < |ds| ==> ds[i] < 32 }

  lemma LettersValid(s: bytes, ds: seq<nat>)
    requires Valid(s) && Digits(ds)
    ensures Valid(s + Letters(ds))
  {
    forall i | 0 <= i < |ds| ensures Digit(Letters(ds)[i]) == Some(ds[i]) {
      LetterDigit(ds[i]);
    }
  }

  lemma AppendLetter(s: bytes, ds: seq<nat>, d: nat)
    requires Valid(s) && Digits(ds) && d < 32
    ensures Valid(s + Letters(ds)) && Valid(s + Letters(ds + [d]))
    ensures Value32(s + Letters(ds + [d])) == Value32(s + Letters(ds)) * 32 + d
  {
    LettersValid(s, ds);
    LetterDigit(d);
    assert s + Letters(ds + [d]) == s + Letters(ds) + [Letter(d)];
    ReadDigit(s + Letters(ds), Letter(d));
  }

  /** Eight digits read as one number. */
  function DigitsNumber(ds: seq<nat>): nat {
    if ds == [] then 0 else DigitsNumber(ds[..|ds| - 1]) * 32 + ds[|ds| - 1]
  }

  function Power32(n: nat): nat { if n == 0 then 1 else Power32(n - 1) * 32 }

  lemma {:induction false} AppendLetters(s: bytes, ds: seq<nat>)
    requires Valid(s) && Digits(ds)
    ensures Valid(s + Letters(ds))
    ensures Value32(s + Letters(ds)) == Value32(s) * Power32(|ds|) + DigitsNumber(ds)
  {
    if ds == [] {
      assert s + Letters(ds) == s;
    } else {
      var init, d := ds[..|ds| - 1], ds[|ds| - 1];
      assert ds == init + [d];
      assert Valid(s + Letters(ds)) && Value32(s + Letters(ds)) == Value32(s + Letters(init)) * 32 + d by {
        AppendLetter(s, init, d);
      }
      hide Value32, Valid, Letters;
      AppendLetters(s, init);
      Scale(Value32(s), Power32(|init|));
    }
  }

  lemma Scale(a: nat, b: nat)
    ensures a * (b * 32) == a * b * 32
  {
  }

  function Number5(g: bytes): nat
    requires |g| == 5
  {
    (((g[0] as int * 256 + g[1]) * 256 + g[2]) * 256 + g[3]) * 256 + g[4]
  }

  lemma AppendGroup(data: bytes)
    requires |data| >= 5
    ensures Value256(data) == Value256(data[..|data| - 5]) * 0x100_0000_0000 + Number5(data[|data| - 5..])
  {
    var n := |data|;
    var d1, d2, d3, d4 := data[..n - 1], data[..n - 2], data[..n - 3], data[..n - 4];
    assert d1[..n - 2] == d2 && d2[..n - 3] == d3 && d3[..n - 4] == d4 && d4[..n - 5] == data[..n - 5];
    assert Value256(data) == Value256(d1) * 256 + data[n - 1];
    assert Value256(d1) == Value256(d2) * 256 + data[n - 2];
    assert Value256(d2) == Value256(d3) * 256 + data[n - 3];
    assert Value256(d3) == Value256(d4) * 256 + data[n - 4];
    assert Value256(d4) == Value256(data[..n - 5]) * 256 + data[n - 5];
  }

  lemma GroupNumber(g: bytes)
    requires |g| == 5
    ensures DigitsNumber(Group(g)) == Number5(g)
  {
    var ds := Group(g);
    EightDigits(ds);
    Bits(g[0], g[1], g[2], g[3], g[4]);
  }

  lemma EightDigits(ds: seq<nat>)
    requires |ds| == 8
    ensures DigitsNumber(ds)
         == ((((((ds[0] * 32 + ds[1]) * 32 + ds[2]) * 32 + ds[3]) * 32 + ds[4]) * 32 + ds[5]) * 32 + ds[6]) * 32 + ds[7]
  {
    FourDigits(ds[..4]);
    assert ds[..5][..4] == ds[..4] && ds[..6][..5] == ds[..5] && ds[..7][..6] == ds[..6];
    assert DigitsNumber(ds[..5]) == DigitsNumber(ds[..4]) * 32 + ds[4];
    assert DigitsNumber(ds[..6]) == DigitsNumber(ds[..5]) * 32 + ds[5];
    assert DigitsNumber(ds[..7]) == DigitsNumber(ds[..6]) * 32 + ds[6];
  }

  lemma FourDigits(ds: seq<nat>)
    requires |ds| == 4
    ensures DigitsNumber(ds) == ((ds[0] * 32 + ds[1]) * 32 + ds[2]) * 32 + ds[3]
  {
    assert ds[..3][..2] == ds[..2] && ds[..2][..1] == ds[..1] && ds[..1][..0] == [];
    assert DigitsNumber(ds[..1]) == ds[0];
    assert DigitsNumber(ds[..2]) == DigitsNumber(ds[..1]) * 32 + ds[1];
    assert DigitsNumber(ds[..3]) == DigitsNumber(ds[..2]) * 32 + ds[2];
  }

  lemma Bits(a: byte, b: byte, c: byte, d: byte, e: byte)
    ensures a == a / 8 * 8 + a % 8 && b == b / 64 * 64 + b / 2 % 32 * 2 + b % 2
    ensures c == c / 16 * 16 + c % 16 && d == d / 128 * 128 + d / 4 % 32 * 4 + d % 4 && e == e / 32 * 32 + e % 32
  {
  }

  /** The letters of the encoder write the number the bytes write. */
  lemma {:induction false} EncodedValue(data: bytes)
    requires |data| % 5 == 0
    ensures Valid(Base32Encode(data)) && Value32(Base32Encode(data)) == Value256(data)
  {
    if data != [] {
      var init, g := data[..|data| - 5], data[|data| - 5..];
      EncodedValue(init);
      GroupNumber(g);
      AppendGroup(data);
      AppendLetters(Base32Encode(init), Group(g));
      assert Power32(8) == 0x100_0000_0000;
    }
  }

  lemma {:induction false} Value256Injective(a: bytes, b: bytes)
    requires |a| == |b| && Value256(a) == Value256(b)
    ensures a == b
  {
    if a != [] {
      var n := |a| - 1;
      Value256Injective(a[..n], b[..n]);
      assert a == a[..n] + [a[n]] && b == b[..n] + [b[n]];
    }
  }

  lemma {:induction false} Value32Injective(s: bytes, t: bytes)
    requires |s| == |t| && Valid(s) && Valid(t) && Value32(s) == Value32(t)
    ensures forall i :: 0 <= i < |s| ==> Digit(s[i]) == Digit(t[i])
  {
    if s != [] {
      var n := |s| - 1;
      Value32Injective(s[..n], t[..n]);
      forall i | 0 <= i < |s| ensures Digit(s[i]) == Digit(t[i]) {
        if i < n { assert s[..n][i] == s[i] && t[..n][i] == t[i]; }
      }
    }
  }

  /** A decoding of `s`: what `Base32Decode` returns when it succeeds. */
  ghost predicate Decodes(s: bytes, output: bytes) {
    Valid(s) && |output| == 5 * |s| / 8 && Value256(output) == Shr(Value32(s), 5 * |s| % 8)
  }

  /** Decoding the encoder's output gives the bytes back, and nothing else. */
  lemma DecodeInvertsEncode(data: bytes, output: bytes)
    requires |data| % 5 == 0
    ensures Decodes(Base32Encode(data), output) <==> output == data
  {
    EncodedValue(data);
    hide Value32, Base32Encode, Value256, Valid;
    assert Shr(Value256(data), 0) == Value256(data);
    if Decodes(Base32Encode(data), output) {
      Value256Injective(output, data);
    }
  }

  /** An info hash has 32 characters: 160 bits, which leave no remainder. */
  lemma WholeValue(s: bytes, output: bytes)
    requires |s| % 8 == 0 && Decodes(s, output)
    ensures |output| == |s| / 8 * 5 && Value256(output) == Value32(s)
  {
    hide Value32, Value256, Valid;
    assert 5 * |s| % 8 == 0 && 5 * |s| / 8 == |s| / 8 * 5;
    assert Shr(Value32(s), 0) == Value32(s);
  }

  /**
   * A 32-character info hash: every valid string is a spelling of the 20 bytes it decodes to, equal
   * letter by letter, up to case, to what the standard encoder writes for them.
   */
  lemma InfoHashIsExact(s: bytes, output: bytes)
    requires |s| == 32 && Decodes(s, output)
    ensures |output| == 20 && Value256(output) == Value32(s)
    ensures forall i :: 0 <= i < 32 ==> Digit(s[i]) == Digit(Base32Encode(output)[i])
  {
    hide Value32, Base32Encode, Value256, Digit, Shr;
    WholeValue(s, output);
    EncodedValue(output);
    Value32Injective(s, Base32Encode(output));
  }
}
