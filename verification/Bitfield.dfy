/** Most-significant-bit-first bit sets (bitfield.rs). */
module Bitfields {
  import opened Wrappers
  import opened Bytes

  const BITS_PER_BYTE: nat := 8

  /** The `n` low bits of a number, most significant first. */
  function BinaryDigits(b: nat, n: nat): (bits: seq<bool>)
    ensures |bits| == n
  {
    if n == 0 then [] else BinaryDigits(b / 2, n - 1) + [b % 2 == 1]
  }

  function FromBinary(bits: seq<bool>): nat {
    if bits == [] then 0
    else FromBinary(bits[..|bits| - 1]) * 2 + if bits[|bits| - 1] then 1 else 0
  }

  function Pow2(n: nat): nat { if n == 0 then 1 else 2 * Pow2(n - 1) }

  lemma {:induction false} BinaryRoundTrip(bits: seq<bool>)
    ensures BinaryDigits(FromBinary(bits), |bits|) == bits && FromBinary(bits) < Pow2(|bits|)
  {
    if bits != [] {
      BinaryRoundTrip(bits[..|bits| - 1]);
      assert bits == bits[..|bits| - 1] + [bits[|bits| - 1]];
    }
  }

  lemma {:induction false} FromBinaryRoundTrip(b: nat, n: nat)
    requires b < Pow2(n)
    ensures FromBinary(BinaryDigits(b, n)) == b
  {
    if n > 0 {
      FromBinaryRoundTrip(b / 2, n - 1);
      assert BinaryDigits(b, n)[..n - 1] == BinaryDigits(b / 2, n - 1);
    }
  }

  lemma Pow2Of8()
    ensures Pow2(8) == 256
  {
    assert Pow2(4) == 16;
  }

  function BitsOf(b: byte): (bits: seq<bool>)
    ensures |bits| == 8
  {
    BinaryDigits(b, 8)
  }

  /** `(b & (1u8 << (7 - k))) != 0`, also `(b >> (7 - k)) & 1 == 1`. */
  predicate Bit(b: byte, k: nat)
    requires k < 8
  {
    BitsOf(b)[k]
  }

  function ByteOf(bits: seq<bool>): byte
    requires |bits| == 8
  {
    BinaryRoundTrip(bits);
    Pow2Of8();
    FromBinary(bits)
  }

  lemma BitsOfByteOf(bits: seq<bool>)
    requires |bits| == 8
    ensures BitsOf(ByteOf(bits)) == bits
  {
    BinaryRoundTrip(bits);
  }

  lemma ByteOfBitsOf(b: byte)
    ensures ByteOf(BitsOf(b)) == b
  {
    Pow2Of8();
    FromBinaryRoundTrip(b, 8);
  }

  /** `b | mask`. */
  function WithBit(b: byte, k: nat): byte
    requires k < 8
  {
    ByteOf(BitsOf(b)[k := true])
  }

  /** `b & !mask`. */
  function WithoutBit(b: byte, k: nat): byte
    requires k < 8
  {
    ByteOf(BitsOf(b)[k := false])
  }

  /** `a | b`. */
  function Or(a: byte, b: byte): byte {
    ByteOf(seq(8, k requires 0 <= k < 8 => Bit(a, k) || Bit(b, k)))
  }

  lemma UpdatedBit(b: byte, k: nat, value: bool, j: nat)
    requires k < 8 && j < 8
    ensures Bit(ByteOf(BitsOf(b)[k := value]), j) == if j == k then value else Bit(b, j)
  {
    BitsOfByteOf(BitsOf(b)[k := value]);
  }

  lemma {:induction false} ZeroDigits(n: nat, k: nat)
    requires k < n
    ensures !BinaryDigits(0, n)[k]
  {
    if k < n - 1 {
      ZeroDigits(n - 1, k);
    }
  }

  lemma ZeroBits()
    ensures forall k :: 0 <= k < 8 ==> !Bit(0, k)
  {
    forall k | 0 <= k < 8 ensures !Bit(0, k) {
      ZeroDigits(8, k);
    }
  }

  lemma OrWithZero(b: byte)
    ensures Or(0, b) == b
  {
    ByteOfBitsOf(b);
    ZeroBits();
    assert seq(8, k requires 0 <= k < 8 => Bit(0, k) || Bit(b, k)) == BitsOf(b);
  }

  // ---- Bit sets written as bytes ----

  predicate BitAt(s: bytes, i: nat)
    requires i < 8 * |s|
  {
    Bit(s[i / 8], i % 8)
  }

  /** The indices of the bits that are set. */
  function SetBits(s: bytes): set<nat> {
    set i: nat | 0 <= i < 8 * |s| && BitAt(s, i)
  }

  /** Bytes are determined by their length and the bits that are set. */
  lemma SetBitsInjective(s: bytes, t: bytes)
    requires |s| == |t| && SetBits(s) == SetBits(t)
    ensures s == t
  {
    forall i | 0 <= i < |s| ensures s[i] == t[i] {
      forall k: nat | k < 8 ensures BitsOf(s[i])[k] == BitsOf(t[i])[k] {
        assert (8 * i + k) / 8 == i && (8 * i + k) % 8 == k;
        assert BitAt(s, 8 * i + k) <==> 8 * i + k in SetBits(s);
        assert BitAt(t, 8 * i + k) <==> 8 * i + k in SetBits(t);
      }
      assert BitsOf(s[i]) == BitsOf(t[i]);
      ByteOfBitsOf(s[i]);
      ByteOfBitsOf(t[i]);
    }
  }

  function BytesFor(pieces: nat): nat { (pieces + 7) / 8 }

  /** No bit beyond the declared pieces is set (BEP 3: spare bits are zero). */
  ghost predicate SpareBitsZero(s: bytes, pieces: nat) {
    |s| == BytesFor(pieces) && forall i :: i in SetBits(s) ==> i < pieces
  }

  lemma ByteUpdate(s: bytes, i: nat, value: bool)
    requires i < 8 * |s|
    ensures SetBits(s[i / 8 := ByteOf(BitsOf(s[i / 8])[i % 8 := value])])
         == if value then SetBits(s) + {i} else SetBits(s) - {i}
  {
    var t := s[i / 8 := ByteOf(BitsOf(s[i / 8])[i % 8 := value])];
    forall j: nat | j < 8 * |s| ensures BitAt(t, j) == if j == i then value else BitAt(s, j) {
      if j / 8 == i / 8 {
        UpdatedBit(s[i / 8], i % 8, value, j % 8);
      }
    }
  }

  class Bitfield {
    const data: array<byte>
    const pieces: nat

    ghost predicate Valid()
    {
      data.Length == BytesFor(pieces)
    }

    /** The set of pieces, as the bytes hold it. */
    ghost function Set(): set<nat>
      reads data
    {
      SetBits(data[..])
    }

    constructor (pieces: nat)
      ensures Valid() && this.pieces == pieces && fresh(data) && Set() == {}
    {
      this.pieces := pieces;
      data := new byte[BytesFor(pieces)](_ => 0);
    }

    /** `set_bit`: false is the out-of-range error. */
    method SetBit(bit: nat) returns (ok: bool)
      requires Valid()
      modifies data
      ensures ok <==> bit < pieces
      ensures Set() == if ok then old(Set()) + {bit} else old(Set())
    {
      if bit >= pieces {
        return false;
      }
      ByteUpdate(data[..], bit, true);
      data[bit / BITS_PER_BYTE] := WithBit(data[bit / BITS_PER_BYTE], bit % BITS_PER_BYTE);
      assert data[..] == old(data[..])[bit / 8 := data[bit / 8]];
      return true;
    }

    method UnsetBit(bit: nat) returns (ok: bool)
      requires Valid()
      modifies data
      ensures ok <==> bit < pieces
      ensures Set() == if ok then old(Set()) - {bit} else old(Set())
    {
      if bit >= pieces {
        return false;
      }
      ByteUpdate(data[..], bit, false);
      data[bit / BITS_PER_BYTE] := WithoutBit(data[bit / BITS_PER_BYTE], bit % BITS_PER_BYTE);
      assert data[..] == old(data[..])[bit / 8 := data[bit / 8]];
      return true;
    }

    method HasBit(bit: nat) returns (r: Option<bool>)
      requires Valid()
      ensures r == if bit < pieces then Some(bit in Set()) else None
    {
      if bit >= pieces {
        return None;
      }
      assert data[..][bit / 8] == data[bit / 8];
      return Some(Bit(data[bit / BITS_PER_BYTE], bit % BITS_PER_BYTE));
    }

    method SetAll()
      requires Valid()
      modifies data
      ensures forall i: nat :: i in Set() <==> i in old(Set()) || i < pieces
    {
      for i := 0 to pieces
        invariant forall j: nat :: j in Set() <==> j in old(Set()) || j < i
      {
        var _ := SetBit(i);
      }
    }

    /** `extend_bytes` ors another field of the same length into this one. */
    method ExtendBytes(more: bytes) returns (ok: bool)
      requires Valid()
      modifies data
      ensures ok <==> |more| == data.Length
      ensures !ok ==> data[..] == old(data[..])
      ensures ok ==> forall i :: 0 <= i < data.Length ==> data[i] == Or(old(data[i]), more[i])
    {
      if |more| != data.Length {
        return false;
      }
      for i := 0 to |more|
        invariant forall j :: 0 <= j < i ==> data[j] == Or(old(data[j]), more[j])
        invariant forall j :: i <= j < data.Length ==> data[j] == old(data[j])
      {
        data[i] := Or(data[i], more[i]);
      }
      return true;
    }
  }

  /** `Bitfield::try_from`: eight bits a byte, so the length always fits and nothing is lost. */
  method TryFrom(s: bytes) returns (bf: Bitfield)
    ensures bf.Valid() && fresh(bf) && fresh(bf.data) && bf.data[..] == s
  {
    bf := new Bitfield(|s| * BITS_PER_BYTE);
    assert bf.data[..] == seq(|s|, _ => 0) by {
      ZeroBits();
      assert SetBits(seq(|s|, _ => 0)) == {};
      SetBitsInjective(bf.data[..], seq(|s|, _ => 0));
    }
    var _ := bf.ExtendBytes(s);
    forall i | 0 <= i < |s| ensures bf.data[i] == s[i] {
      OrWithZero(s[i]);
    }
  }

  // ---- Iteration ----

  /** The set bits from `from` on, in ascending order. */
  function BitsFrom(s: bytes, from: nat): (r: seq<nat>)
    requires from <= 8 * |s|
    decreases 8 * |s| - from
  {
    if from == 8 * |s| then []
    else (if BitAt(s, from) then [from] else []) + BitsFrom(s, from + 1)
  }

  lemma BitPlace(byteIdx: nat, bitIdx: nat)
    requires bitIdx < 8
    ensures (byteIdx * 8 + bitIdx) / 8 == byteIdx && (byteIdx * 8 + bitIdx) % 8 == bitIdx
  {
  }

  lemma BitAtPlace(s: bytes, byteIdx: nat, bitIdx: nat)
    requires byteIdx < |s| && bitIdx < 8
    ensures BitAt(s, byteIdx * 8 + bitIdx) == Bit(s[byteIdx], bitIdx)
  {
    hide Bit;
    BitPlace(byteIdx, bitIdx);
  }

  /** The next bit to look at, and what iterating from it yields. */
  lemma FirstBit(s: bytes, byteIdx: nat, bitIdx: nat)
    requires byteIdx < |s| && bitIdx < 8
    ensures var from := byteIdx * 8 + bitIdx;
      BitsFrom(s, from) == (if Bit(s[byteIdx], bitIdx) then [from] else []) + BitsFrom(s, from + 1)
  {
    hide Bit, BitAt;
    BitAtPlace(s, byteIdx, bitIdx);
  }

  /** The iteration yields every set bit once, in ascending order, and nothing else. */
  lemma {:induction false} BitsFromIsListing(s: bytes, from: nat)
    requires from <= 8 * |s|
    ensures forall i :: i in BitsFrom(s, from) <==> from <= i < 8 * |s| && BitAt(s, i)
    ensures forall i, j :: 0 <= i < j < |BitsFrom(s, from)| ==> BitsFrom(s, from)[i] < BitsFrom(s, from)[j]
    decreases 8 * |s| - from
  {
    if from < 8 * |s| {
      BitsFromIsListing(s, from + 1);
      var later := BitsFrom(s, from + 1);
      forall k | 0 <= k < |later| ensures from < later[k] {
        assert later[k] in later;
      }
    }
  }

  class BitfieldIter {
    const bitfield: bytes
    var byteIdx: nat
    var bitIdx: nat

    ghost predicate Valid()
      reads this
    {
      bitIdx <= 8 && 8 * byteIdx + bitIdx <= 8 * |bitfield|
    }

    ghost function Position(): nat
      reads this
    {
      8 * byteIdx + bitIdx
    }

    constructor (s: bytes)
      ensures Valid() && bitfield == s && Position() == 0
    {
      bitfield, byteIdx, bitIdx := s, 0, 0;
    }

    /** `next`: the first element of what remains, which then no longer remains. */
    method Next() returns (r: Option<nat>)
      requires Valid()
      modifies this
      ensures Valid()
      ensures BitsFrom(bitfield, old(Position()))
           == (if r.Some? then [r.value] else []) + BitsFrom(bitfield, Position())
      ensures r == None ==> Position() == 8 * |bitfield|
      ensures r.Some? ==> Position() > old(Position())
    {
      hide BitsFrom, Bit, BitAt;
      while byteIdx < |bitfield|
        invariant Valid() && Position() >= old(Position())
        invariant BitsFrom(bitfield, old(Position())) == BitsFrom(bitfield, Position())
        decreases |bitfield| - byteIdx
      {
        ghost var thisByte := byteIdx;
        var b := bitfield[byteIdx];
        while bitIdx < 8
          invariant byteIdx == thisByte
          invariant Valid() && byteIdx < |bitfield| && b == bitfield[byteIdx] && Position() >= old(Position())
          invariant BitsFrom(bitfield, old(Position())) == BitsFrom(bitfield, Position())
          decreases 8 - bitIdx
        {
          FirstBit(bitfield, byteIdx, bitIdx);
          if Bit(b, bitIdx) {
            var idx := byteIdx * 8 + bitIdx;
            bitIdx := bitIdx + 1;
            return Some(idx);
          }
          bitIdx := bitIdx + 1;
        }
        byteIdx, bitIdx := byteIdx + 1, 0;
      }
      return None;
    }
  }
}
