/** Base-128 varints: the wire form, independently of the code that reads and writes it.
    Google's "Encoding" guide for Protocol Buffers, section "Base 128 Varints". */
module PbVarint {
  import opened Words

  /** The number denoted by a group of bytes, seven bits each, least significant group first. */
  function Base128(s: seq<u8>): nat {
    if s == [] then 0 else s[0] % 128 + 128 * Base128(s[1..])
  }

  /** How many bytes the first varint of s occupies: up to the first clear continuation bit. */
  function Extent(s: seq<u8>): (r: Option<nat>)
    ensures r.Some? ==> 1 <= r.value <= |s| && s[r.value - 1] < 128
    ensures r.Some? ==> forall i :: 0 <= i < r.value - 1 ==> s[i] >= 128
    ensures r.None? ==> forall i :: 0 <= i < |s| ==> s[i] >= 128
  {
    if s == [] then None
    else if s[0] < 128 then Some(1)
    else match Extent(s[1..]) case None => None case Some(n) => Some(n + 1)
  }

  lemma ExtentIs(s: seq<u8>, n: nat)
    requires 1 <= n <= |s| && s[n - 1] < 128
    requires forall i :: 0 <= i < n - 1 ==> s[i] >= 128
    ensures Extent(s) == Some(n)
  {
    var r := Extent(s);
    assert r.Some?;
  }

  /** A 64-bit varint: at most ten bytes, the tenth holding one bit. */
  function ReadVarint(s: seq<u8>): (r: Option<(nat, nat)>)
    ensures r.Some? ==> 1 <= r.value.1 <= |s|
  {
    match Extent(s)
    case None => None
    case Some(n) =>
      if n > 10 || (n == 10 && s[9] > 1) then None else Some((Base128(s[..n]), n))
  }

  /** Whether byte number i (i >= 5) of an over-long 32-bit varint is mere sign extension. */
  predicate SignExtension(i: nat, b: u8, negative: bool) {
    b % 128 == 0 || (negative && b == if i < 9 then 0xFF else 0x01)
  }

  predicate Extended(s: seq<u8>, n: nat, negative: bool)
    requires n <= |s|
  {
    forall i {:trigger SignExtension(i, s[i], negative)} :: 5 <= i < n ==> SignExtension(i, s[i], negative)
  }

  predicate BadFifth(b: u8) { b / 16 % 8 != 0 && b / 8 % 16 != 15 }

  function Low32(v: nat): nat { v % TWO32 }

  /** A 32-bit varint: the low 32 bits of a 64-bit one whose further bits are zeros or sign extension. */
  function ReadVarint32(s: seq<u8>): (r: Option<(nat, nat)>)
    ensures r.Some? ==> 1 <= r.value.1 <= |s| && r.value.0 < TWO32
  {
    match Extent(s)
    case None => None
    case Some(n) =>
      var low := Low32(Base128(s[..n]));
      if n > 10 then None
      else if n >= 5 && BadFifth(s[4]) then None
      else if Extended(s, n, low >= 0x8000_0000) then Some((low, n))
      else None
  }

  /** The canonical form of a number: as few bytes as possible. */
  function VarintBytes(v: nat): (s: seq<u8>)
    ensures |s| >= 1
  {
    if v < 128 then [v] else [128 + v % 128] + VarintBytes(v / 128)
  }

  // ---- The canonical form is read back -------------------------------------------------

  lemma {:induction false} CanonicalShape(v: nat)
    ensures var s := VarintBytes(v);
            && Base128(s) == v && s[|s| - 1] < 128
            && (forall i :: 0 <= i < |s| - 1 ==> s[i] >= 128)
  {
    var s := VarintBytes(v);
    if v < 128 {
      assert s[1..] == [];
    } else {
      CanonicalShape(v / 128);
      assert s[1..] == VarintBytes(v / 128);
    }
  }

  lemma {:induction false} CanonicalLength(v: nat, n: nat)
    requires v < Pow2(7 * n) && n >= 1
    ensures |VarintBytes(v)| <= n
  {
    Pow2Constants();
    if v >= 128 {
      Pow2Add(7, 7 * (n - 1));
      CanonicalLength(v / 128, n - 1);
    }
  }

  lemma {:induction false} TopGroup(v: nat, n: nat)
    requires |VarintBytes(v)| == n + 1
    ensures VarintBytes(v)[n] == v / Pow2(7 * n)
  {
    if n > 0 {
      TopGroup(v / 128, n - 1);
      Pow2Add(7, 7 * (n - 1));
      Pow2Constants();
      DivDiv(v, 128, Pow2(7 * (n - 1)));
    }
  }

  /** Ten groups hold any 64-bit number, and the tenth then holds its top bit only. */
  lemma CanonicalOf64(v: u64)
    ensures |VarintBytes(v)| <= 10
    ensures |VarintBytes(v)| == 10 ==> VarintBytes(v)[9] <= 1
  {
    var ten, nine := 10, 9;
    assert Pow2(7 * ten) == 0x40_0000_0000_0000_0000 && Pow2(7 * nine) == 0x8000_0000_0000_0000 by { Pow2Constants(); }
    CanonicalLength(v, ten);
    if |VarintBytes(v)| == nine + 1 { TopGroup(v, nine); }
  }

  /** pb_decode_varint inverts the canonical form of every 64-bit value, whatever follows it. */
  lemma {:induction false} VarintRoundTrip(v: u64, rest: seq<u8>)
    ensures ReadVarint(VarintBytes(v) + rest) == Some((v, |VarintBytes(v)|))
  {
    var c := VarintBytes(v);
    CanonicalShape(v);
    CanonicalOf64(v);
    ExtentIs(c + rest, |c|);
    assert (c + rest)[..|c|] == c;
  }

  // ---- 32-bit reading -------------------------------------------------------------------

  /** Whatever pb_decode_varint32 accepts, pb_decode_varint accepts: same length, same low 32 bits. */
  lemma NarrowAgreesWithWide(s: seq<u8>)
    requires ReadVarint32(s).Some?
    ensures ReadVarint(s).Some?
    ensures ReadVarint(s).value.1 == ReadVarint32(s).value.1
    ensures ReadVarint(s).value.0 % TWO32 == ReadVarint32(s).value.0
  {
    var n := Extent(s).value;
    if n == 10 { assert SignExtension(9, s[9], ReadVarint32(s).value.0 >= 0x8000_0000); }
  }

  lemma {:induction false} GroupAt(v: nat, i: nat)
    requires i < |VarintBytes(v)| - 1
    ensures VarintBytes(v)[i] == 128 + (v / Pow2(7 * i)) % 128
  {
    if i > 0 {
      GroupAt(v / 128, i - 1);
      Pow2Add(7, 7 * (i - 1));
      Pow2Constants();
      DivDiv(v, 128, Pow2(7 * (i - 1)));
    }
  }

  lemma {:induction false} CanonicalAtLeast(v: nat, n: nat)
    requires v >= Pow2(7 * n)
    ensures |VarintBytes(v)| > n
  {
    if n > 0 {
      Pow2Add(7, 7 * (n - 1));
      Pow2Constants();
      Pow2Mono(7, 7 * n);
      assert v / 128 >= Pow2(7 * (n - 1));
      CanonicalAtLeast(v / 128, n - 1);
    }
  }

  lemma NegativeIsTenBytes(v: u64)
    requires v >= TWO64 - 0x8000_0000
    ensures |VarintBytes(v)| == 10 && VarintBytes(v)[9] == 1
  {
    var nine := 9;
    assert Pow2(7 * nine) == 0x8000_0000_0000_0000 by { Pow2Constants(); }
    CanonicalAtLeast(v, nine);
    CanonicalOf64(v);
    TopGroup(v, nine);
  }

  lemma FifthGroup(v: u64)
    requires |VarintBytes(v)| >= 5
    ensures var g := v / 0x1000_0000;
            VarintBytes(v)[4] == if |VarintBytes(v)| == 5 then g else 128 + g % 128
  {
    var four := 4;
    assert Pow2(7 * four) == 0x1000_0000 by { Pow2Constants(); }
    if |VarintBytes(v)| == 5 { TopGroup(v, four); } else { GroupAt(v, four); }
  }

  /** A number of at least 2^64 - 2^31 is written in ten bytes, bytes 5 to 9 being sign extension. */
  lemma NegativeGroups(v: u64)
    requires v >= TWO64 - 0x8000_0000
    ensures |VarintBytes(v)| == 10 && VarintBytes(v)[4] >= 248
    ensures forall i :: 5 <= i < 10 ==> SignExtension(i, VarintBytes(v)[i], true)
  {
    var c := VarintBytes(v);
    NegativeIsTenBytes(v);
    assert c[4] >= 248 by { FifthGroup(v); }
    forall i | 5 <= i < 9 ensures c[i] == 255 {
      GroupAt(v, i);
      AllOnes(v, i);
    }
  }

  lemma AllOnes(v: u64, i: nat)
    requires v >= TWO64 - 0x8000_0000 && 5 <= i < 9
    ensures (v / Pow2(7 * i)) % 128 == 127
  {
    var k := i;
    assert Pow2(7 * k) == if k == 5 then 0x8_0000_0000 else if k == 6 then 0x400_0000_0000
                          else if k == 7 then 0x2_0000_0000_0000 else 0x100_0000_0000_0000 by {
      Pow2Constants();
      Pow2Add(35, 7); Pow2Add(42, 7); Pow2Add(49, 7);
    }
  }

  /** pb_decode_varint32 accepts the canonical form of every 32-bit value, and of every negative
      32-bit value sign-extended to 64 bits. */
  lemma {:induction false} Varint32RoundTrip(v: u64, rest: seq<u8>)
    requires v < TWO32 || v >= TWO64 - 0x8000_0000
    ensures ReadVarint32(VarintBytes(v) + rest) == Some((v % TWO32, |VarintBytes(v)|))
  {
    if v < TWO32 { ShortReads(v, rest); } else { NegativeReads(v, rest); }
  }

  lemma {:induction false} ShortReads(v: u32, rest: seq<u8>)
    ensures ReadVarint32(VarintBytes(v) + rest) == Some((v, |VarintBytes(v)|))
  {
    var c := VarintBytes(v);
    var s := c + rest;
    assert Extent(s) == Some(|c|) by { CanonicalShape(v); ExtentIs(s, |c|); }
    assert s[..|c|] == c;
    assert Low32(Base128(c)) == v by { CanonicalShape(v); }
    assert |c| <= 5 && (|c| == 5 ==> !BadFifth(s[4])) by { ShortIsFive(v); }
  }

  lemma {:induction false} NegativeReads(v: u64, rest: seq<u8>)
    requires v >= TWO64 - 0x8000_0000
    ensures ReadVarint32(VarintBytes(v) + rest) == Some((v % TWO32, |VarintBytes(v)|))
  {
    var c := VarintBytes(v);
    var s := c + rest;
    CanonicalShape(v);
    ExtentIs(s, |c|);
    assert s[..|c|] == c;
    NegativeGroups(v);
    assert s[4] == c[4] && s[4] >= 248;
    assert (s[4] / 8) % 16 == 15;
    assert v % TWO32 >= 0x8000_0000;
    forall i | 5 <= i < 10 ensures SignExtension(i, s[i], v % TWO32 >= 0x8000_0000) {
      assert s[i] == c[i] && SignExtension(i, c[i], true);
    }
  }

  lemma ShortIsFive(v: u32)
    ensures |VarintBytes(v)| <= 5
    ensures |VarintBytes(v)| == 5 ==> VarintBytes(v)[4] < 16
  {
    var five := 5;
    assert Pow2(7 * five) == 0x8_0000_0000 by { Pow2Constants(); }
    CanonicalLength(v, five);
    if |VarintBytes(v)| == five { FifthGroup(v); }
  }

  // ---- Zigzag -----------------------------------------------------------------------------

  /** Signed numbers ordered by magnitude: 0, -1, 1, -2, ... */
  function ZigZag(n: int): nat { if n < 0 then -2 * n - 1 else 2 * n }

  function UnZigZag(z: nat): int { if z % 2 == 1 then -(z / 2) - 1 else z / 2 }

  /** Zigzag is a bijection between the 64-bit signed and unsigned numbers. */
  lemma ZigZagBijection(n: int, z: nat)
    ensures UnZigZag(ZigZag(n)) == n && ZigZag(UnZigZag(z)) == z
    ensures -0x8000_0000_0000_0000 <= n < 0x8000_0000_0000_0000 <==> ZigZag(n) < TWO64
  {}

  // ---- Reading depends only on the bytes read ----------------------------------------------

  lemma {:induction false} ExtentExtends(s: seq<u8>, more: seq<u8>)
    requires Extent(s).Some?
    ensures Extent(s + more) == Extent(s)
  {
    var n := Extent(s).value;
    ExtentIs(s + more, n);
  }

  lemma VarintExtends(s: seq<u8>, more: seq<u8>)
    ensures ReadVarint(s).Some? ==> ReadVarint(s + more) == ReadVarint(s)
    ensures ReadVarint32(s).Some? ==> ReadVarint32(s + more) == ReadVarint32(s)
  {
    if Extent(s).Some? {
      var n := Extent(s).value;
      ExtentExtends(s, more);
      assert (s + more)[..n] == s[..n];
      if ReadVarint32(s).Some? {
        var low := ReadVarint32(s).value.0;
        forall i | 5 <= i < n ensures SignExtension(i, (s + more)[i], low >= 0x8000_0000) {
          assert SignExtension(i, s[i], low >= 0x8000_0000);
        }
      }
    }
  }
}
