/** Shared result types and the byte-level vocabulary of the codecs. */
module Wrappers {
  datatype Option<+T> = None | Some(value: T)

  datatype Result<+T, +E> = Ok(value: T) | Err(error: E)
}

/** Bytes, machine-word limits and the lexicographic order of byte strings. */
module Bytes {
  type byte = x: int | 0 <= x < 256

  const U16_LIMIT := 0x1_0000
  const U32_LIMIT := 0x1_0000_0000
  const U64_LIMIT := 0x1_0000_0000_0000_0000
  const I64_MAX := 0x7FFF_FFFF_FFFF_FFFF
  const I64_MIN := -0x8000_0000_0000_0000

  type bytes = seq<byte>

  lemma Reassociate(a: bytes, b: bytes, c: bytes)
    ensures a + (b + c) == (a + b) + c
  {
  }

  /** `(n as u16).to_be_bytes()`: the cast keeps the low 16 bits. */
  function BeU16(n: nat): (r: bytes)
    ensures |r| == 2
  {
    var w := n % U16_LIMIT;
    [w / 0x100, w % 0x100]
  }

  function FromBeU16(s: bytes): nat
    requires |s| == 2
  {
    s[0] as int * 0x100 + s[1]
  }

  lemma BeU16RoundTrip(n: nat)
    ensures FromBeU16(BeU16(n)) == n % U16_LIMIT
  {
  }

  /** `(n as u32).to_be_bytes()`: the cast keeps the low 32 bits. */
  function BeU32(n: nat): (r: bytes)
    ensures |r| == 4
  {
    BeU16(n / U16_LIMIT) + BeU16(n)
  }

  /** `u32::from_be_bytes`. */
  function FromBeU32(s: bytes): (n: nat)
    requires |s| == 4
    ensures n < U32_LIMIT
  {
    FromBeU16(s[..2]) * U16_LIMIT + FromBeU16(s[2..])
  }

  /** A `usize` survives the four-byte field exactly when the cast does not truncate it. */
  lemma BeU32RoundTrip(n: nat)
    ensures FromBeU32(BeU32(n)) == n % U32_LIMIT
  {
    BeU16RoundTrip(n / U16_LIMIT);
    BeU16RoundTrip(n);
    assert BeU32(n)[..2] == BeU16(n / U16_LIMIT) && BeU32(n)[2..] == BeU16(n);
  }

  lemma BeU16Inverse(s: bytes)
    requires |s| == 2
    ensures BeU16(FromBeU16(s)) == s
  {
  }

  /** Reading then writing a four-byte field gives back the same bytes. */
  lemma BeU32Inverse(s: bytes)
    requires |s| == 4
    ensures BeU32(FromBeU32(s)) == s
  {
    BeU16Inverse(s[..2]);
    BeU16Inverse(s[2..]);
    assert BeU32(FromBeU32(s)) == BeU16(FromBeU16(s[..2])) + BeU16(FromBeU16(s[2..])) by {
      LowWord(FromBeU16(s[..2]), FromBeU16(s[2..]));
    }
  }

  lemma LowWord(hi: nat, lo: nat)
    requires lo < U16_LIMIT
    ensures (hi * U16_LIMIT + lo) / U16_LIMIT == hi && BeU16(hi * U16_LIMIT + lo) == BeU16(lo)
  {
  }

  /** Strict lexicographic order, the order of `BTreeMap<&[u8], _>` keys and of peer ids. */
  predicate Less(a: bytes, b: bytes) {
    b != [] && (a == [] || a[0] < b[0] || (a[0] == b[0] && Less(a[1..], b[1..])))
  }

  /** The strings agree before place `i`, and there the first one ends or has the smaller byte. */
  ghost predicate DecidedAt(a: bytes, b: bytes, i: nat) {
    i <= |a| && i < |b| && a[..i] == b[..i] && (i == |a| || a[i] < b[i])
  }

  /** The order is decided at the first difference, or by the length if there is none. */
  lemma {:induction false} LessIff(a: bytes, b: bytes)
    ensures Less(a, b) <==> exists i: nat :: DecidedAt(a, b, i)
  {
    if b != [] && a != [] && a[0] == b[0] {
      LessIff(a[1..], b[1..]);
      assert a == [a[0]] + a[1..] && b == [b[0]] + b[1..];
      if i: nat :| DecidedAt(a[1..], b[1..], i) {
        assert a[..i + 1] == [a[0]] + a[1..][..i] && b[..i + 1] == [b[0]] + b[1..][..i];
        assert DecidedAt(a, b, i + 1);
      }
      if i: nat :| DecidedAt(a, b, i) {
        assert a[1..][..i - 1] == a[..i][1..] && b[1..][..i - 1] == b[..i][1..];
        assert DecidedAt(a[1..], b[1..], i - 1);
      }
    } else if b != [] {
      assert a[..0] == b[..0];
      assert a == [] || a[0] < b[0] ==> DecidedAt(a, b, 0);
      if i: nat :| DecidedAt(a, b, i) {
        assert i > 0 ==> a[..i][0] == b[..i][0];
      }
    }
  }

  lemma {:induction false} LessTotal(a: bytes, b: bytes)
    ensures (a == b) || Less(a, b) || Less(b, a)
    ensures !(Less(a, b) && Less(b, a))
    ensures a == b ==> !Less(a, b)
  {
    if a != [] && b != [] && a[0] == b[0] {
      LessTotal(a[1..], b[1..]);
      assert a == [a[0]] + a[1..] && b == [b[0]] + b[1..];
    }
  }

  lemma {:induction false} LessTransitive(a: bytes, b: bytes, c: bytes)
    requires Less(a, b) && Less(b, c)
    ensures Less(a, c)
  {
    if a != [] && a[0] == b[0] == c[0] {
      LessTransitive(a[1..], b[1..], c[1..]);
    }
  }

  /** Keys in strictly ascending order, each listed once. */
  ghost predicate Ascending(ks: seq<bytes>) {
    forall i, j :: 0 <= i < j < |ks| ==> Less(ks[i], ks[j])
  }

  ghost predicate IsLeast(k: bytes, s: set<bytes>) {
    k in s && forall x :: x in s && x != k ==> Less(k, x)
  }

  lemma {:induction false} LeastExists(s: set<bytes>)
    requires s != {}
    ensures exists k :: IsLeast(k, s)
    decreases |s|
  {
    var x :| x in s;
    if s - {x} == {} {
      assert s == {x};
      assert IsLeast(x, s);
    } else {
      LeastExists(s - {x});
      var k :| IsLeast(k, s - {x});
      LessTotal(x, k);
      if Less(k, x) {
        assert IsLeast(k, s);
      } else {
        forall y | y in s && y != x ensures Less(x, y) {
          if y != k { LessTransitive(x, k, y); }
        }
        assert IsLeast(x, s);
      }
    }
  }

  /** The iteration order of a `BTreeMap` with key set `s`. */
  ghost function SortedKeys(s: set<bytes>): (ks: seq<bytes>)
    ensures KeySet(ks) == s
    ensures forall k :: k in ks <==> k in s
    ensures Ascending(ks)
    decreases |s|
  {
    if s == {} then []
    else
      LeastExists(s);
      var k :| IsLeast(k, s);
      [k] + SortedKeys(s - {k})
  }

  ghost function KeySet(ks: seq<bytes>): (s: set<bytes>)
    ensures forall k :: k in s <==> k in ks
    ensures ks != [] ==> ks[0] in s
  {
    set k | k in ks
  }

  lemma HeadIsLeast(ks: seq<bytes>)
    requires Ascending(ks) && ks != []
    ensures IsLeast(ks[0], KeySet(ks))
  {
    forall x | x in ks && x != ks[0] ensures Less(ks[0], x) {
      var i :| 0 <= i < |ks| && ks[i] == x;
    }
  }

  /** A key set has one ascending listing only. */
  lemma {:induction false} AscendingUnique(ks: seq<bytes>, ls: seq<bytes>)
    requires Ascending(ks) && Ascending(ls)
    requires KeySet(ks) == KeySet(ls)
    ensures ks == ls
  {
    if ks != [] && ls != [] {
      HeadIsLeast(ks);
      HeadIsLeast(ls);
      LessTotal(ks[0], ls[0]);
      forall k ensures k in ks[1..] <==> k in ls[1..] {
        LessTotal(ks[0], k);
        assert k in ks <==> k == ks[0] || k in ks[1..];
        assert k in ls <==> k == ls[0] || k in ls[1..];
        assert k in KeySet(ks) <==> k in KeySet(ls);
      }
      AscendingUnique(ks[1..], ls[1..]);
      assert ks == [ks[0]] + ks[1..] && ls == [ls[0]] + ls[1..];
    }
  }
}
