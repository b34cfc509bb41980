/** The big-endian bit reader of the ALAC decoder (common/libraop/src/alac.c). */
module AlacBits {
  import opened Words

  /** The bytes in memory from the start of the input buffer on. */
  type Memory = nat -> u8

  /** Bit p of the memory; bit 0 is the top bit of byte 0. */
  function Bit(m: Memory, p: nat): (b: nat)
    ensures b <= 1
  {
    m(p / 8) / Pow2(7 - p % 8) % 2
  }

  /** The number written in the n bits from bit p on, most significant bit first. */
  function Number(m: Memory, p: nat, n: nat): nat {
    if n == 0 then 0 else 2 * Number(m, p, n - 1) + Bit(m, p + n - 1)
  }

  lemma {:induction false} NumberBound(m: Memory, p: nat, n: nat)
    ensures Number(m, p, n) < Pow2(n)
  {
    if n > 0 { NumberBound(m, p, n - 1); }
  }

  /** The n bits from bit p on read v. */
  ghost predicate Reads(m: Memory, p: nat, n: nat, v: nat) {
    forall u {:trigger Unfold(u)} :: u == 0 ==> v == Number(m, p, n)
  }

  lemma ReadsOne(m: Memory, p: nat, n: nat, v: nat, w: nat)
    requires Reads(m, p, n, v) && Reads(m, p, n, w)
    ensures v == w
  {
    assert Unfold(0);
  }

  /** The top bits of a byte. */
  lemma {:induction false} TopBits(m: Memory, i: nat, n: nat)
    requires n <= 8
    ensures Number(m, 8 * i, n) == m(i) / Pow2(8 - n)
  {
    if n == 0 {
      Pow2Constants();
    } else {
      TopBits(m, i, n - 1);
      Halved(m(i), 8 - n);
      InByte(i, n);
    }
  }

  lemma Halved(b: nat, n: nat)
    ensures b / Pow2(n) == 2 * (b / Pow2(n + 1)) + b / Pow2(n) % 2
  {
    DivDiv(b, Pow2(n), 2);
    assert Pow2(n + 1) == Pow2(n) * 2;
  }

  lemma InByte(i: nat, n: nat)
    requires 0 < n <= 8
    ensures (8 * i + n - 1) / 8 == i && 7 - (8 * i + n - 1) % 8 == 8 - n
  {}

  lemma WholeByte(m: Memory, p: nat, i: nat, n: nat)
    requires n == 8 && p == 8 * i
    ensures Number(m, p, n) == m(i)
  {
    TopBits(m, i, n);
    assert Pow2(0) == 1;
  }

  lemma LastBit(m: Memory, i: nat)
    ensures Number(m, 8 * i + 7, 1) == m(i) % 2
  {
    assert Pow2(0) == 1;
    assert (8 * i + 7) / 8 == i && 7 - (8 * i + 7) % 8 == 0;
    assert Number(m, 8 * i + 7, 0) == 0;
  }

  function ThreeBytes(m: Memory, i: nat): (w: nat)
    ensures w < 0x100_0000
  {
    m(i) * 0x1_0000 + m(i + 1) * 0x100 + m(i + 2)
  }

  lemma Pow2Bytes(a: nat, b: nat, c: nat)
    requires a == 8 && b == 16 && c == 24
    ensures Pow2(a) == 0x100 && Pow2(b) == 0x1_0000 && Pow2(c) == 0x100_0000
  {
    Pow2Constants();
    Pow2Add(a, a);
    Pow2Add(a, b);
  }

  /** x is h followed by the digits y, where one step of h is worth d. */
  ghost predicate Joined(x: nat, h: nat, d: nat, y: nat) {
    forall u {:trigger Unfold(u)} :: u == 0 ==> x == h * d + y && y < d
  }

  ghost predicate Product(x: nat, a: nat, b: nat) {
    forall u {:trigger Unfold(u)} :: u == 0 ==> x == a * b
  }

  lemma Pow2Product(a: nat, b: nat)
    ensures Product(Pow2(a + b), Pow2(a), Pow2(b))
  {
    Pow2Add(a, b);
  }

  lemma {:induction false} NumberJoined(m: Memory, p: nat, a: nat, b: nat)
    ensures Joined(Number(m, p, a + b), Number(m, p, a), Pow2(b), Number(m, p + a, b))
    decreases b
  {
    if b > 0 {
      NumberJoined(m, p, a, b - 1);
      JoinedDigit(Number(m, p, a + b - 1), Number(m, p, a), Pow2(b - 1), Number(m, p + a, b - 1),
            Bit(m, p + a + b - 1));
    }
  }

  lemma JoinedDigit(x: nat, h: nat, d: nat, y: nat, bit: nat)
    requires Joined(x, h, d, y) && bit <= 1
    ensures Joined(2 * x + bit, h, 2 * d, 2 * y + bit)
  {
    assert Unfold(0);
    assert 2 * (h * d) == h * (2 * d);
  }

  function Join(h: nat, n: nat, y: nat): nat { h * Pow2(n) + y }

  lemma JoinIs(h: nat, n: nat, y: nat)
    requires y < Pow2(n)
    ensures Joined(Join(h, n, y), h, Pow2(n), y)
  {}

  lemma ReadsJoined(m: Memory, p: nat, a: nat, x: nat, b: nat, y: nat, z: nat)
    requires Reads(m, p, a, x) && Reads(m, p + a, b, y) && Joined(z, x, Pow2(b), y)
    ensures Reads(m, p, a + b, z)
  {
    NumberJoined(m, p, a, b);
    ReadsOnly(m, p, a, x);
    ReadsOnly(m, p + a, b, y);
    JoinedOne(Number(m, p, a + b), z, x, Pow2(b), y);
  }

  lemma ReadsOnly(m: Memory, p: nat, n: nat, v: nat)
    requires Reads(m, p, n, v)
    ensures v == Number(m, p, n)
  {
    assert Unfold(0);
  }

  lemma JoinedOne(x: nat, z: nat, h: nat, d: nat, y: nat)
    requires Joined(x, h, d, y) && Joined(z, h, d, y)
    ensures x == z
  {
    assert Unfold(0);
  }

  lemma ThreeJoined(x: nat, a: nat, y: nat, b: nat, c: nat)
    requires Joined(x, a, 0x1_0000, y) && Joined(y, b, 0x100, c)
    ensures x == a * 0x1_0000 + b * 0x100 + c
  {
    assert Unfold(0);
  }

  lemma ThreeBytesIs(m: Memory, i: nat, n: nat)
    requires n == 8
    ensures Number(m, 8 * i, n + (n + n)) == ThreeBytes(m, i)
  {
    var p := 8 * i;
    WholeByte(m, p, i, n); WholeByte(m, p + n, i + 1, n); WholeByte(m, p + n + n, i + 2, n);
    Pow2Bytes(n, n + n, n + (n + n));
    NumberJoined(m, p, n, n + n);
    NumberJoined(m, p + n, n, n);
    ThreeJoined(Number(m, p, n + (n + n)), m(i), Number(m, p + n, n + n), m(i + 1), m(i + 2));
  }

  /** The last bits digits of the last ca of a times w, one digit in place e being worth ea. */
  ghost predicate Extracts(w: nat, a: nat, ca: nat, ea: nat, x: nat) {
    forall u {:trigger Unfold(u)} :: u == 0 ==> ca > 0 && ea > 0 && w * a % ca / ea == x
  }

  function Taken(word: nat, acc: nat, bits: nat): int
    requires bits <= 24
  {
    word * Pow2(acc) % 0x100_0000 / Pow2(24 - bits)
  }

  lemma TakenIs(w: nat, acc: nat, bits: nat, x: nat)
    requires bits <= 24 && Extracts(w, Pow2(acc), 0x100_0000, Pow2(24 - bits), x)
    ensures Taken(w, acc, bits) == x
  {
    assert Unfold(0);
  }

  /** Shifting the read bits out on the left and the unwanted ones out on the right leaves the bits wanted. */
  lemma Extracted(m: Memory, i: nat, acc: nat, bits: nat)
    requires acc < 8 && bits <= 16
    ensures Taken(ThreeBytes(m, i), acc, bits) == Number(m, 8 * i + acc, bits)
  {
    ExtractedSum(m, i, acc, bits, 24 - acc - bits, 8);
    Pow2Bytes(8, 16, 24);
    TakenIs(ThreeBytes(m, i), acc, bits, Number(m, 8 * i + acc, bits));
  }

  lemma ExtractedSum(m: Memory, i: nat, acc: nat, bits: nat, rest: nat, n: nat)
    requires acc + bits + rest == n + (n + n) && n == 8
    ensures Extracts(ThreeBytes(m, i), Pow2(acc), Pow2(acc + bits + rest), Pow2(rest + acc),
          Number(m, 8 * i + acc, bits))
  {
    ThreeBytesIs(m, i, n);
    ExtractedAt(m, 8 * i, acc, bits, rest);
  }

  lemma ExtractedAt(m: Memory, p: nat, a: nat, b: nat, c: nat)
    ensures Extracts(Number(m, p, a + b + c), Pow2(a), Pow2(a + b + c), Pow2(c + a), Number(m, p + a, b))
  {
    Parts(m, p, a, b, c);
    PartsOfPow2(a, b, c);
    ExtractedNumbers(Number(m, p, a + b + c), Number(m, p, a), Pow2(b + c), Number(m, p + a, b + c),
                     Number(m, p + a, b), Pow2(c), Number(m, p + a + b, c), Pow2(a),
                     Pow2(a + b + c), Pow2(c + a));
  }

  lemma Parts(m: Memory, p: nat, a: nat, b: nat, c: nat)
    ensures Joined(Number(m, p, a + b + c), Number(m, p, a), Pow2(b + c), Number(m, p + a, b + c))
    ensures Joined(Number(m, p + a, b + c), Number(m, p + a, b), Pow2(c), Number(m, p + a + b, c))
  {
    NumberJoined(m, p, a, b + c);
    NumberJoined(m, p + a, b, c);
  }

  lemma PartsOfPow2(a: nat, b: nat, c: nat)
    ensures Product(Pow2(a + b + c), Pow2(b + c), Pow2(a)) && Product(Pow2(c + a), Pow2(c), Pow2(a))
  {
    Pow2Product(b + c, a);
    Pow2Product(c, a);
  }

  lemma ExtractedNumbers(w: nat, h: nat, c: nat, y: nat, x: nat, e: nat, r: nat, a: nat, ca: nat, ea: nat)
    requires Joined(w, h, c, y) && Joined(y, x, e, r) && a > 0 && Product(ca, c, a) && Product(ea, e, a)
    ensures Extracts(w, a, ca, ea, x)
  {
    assert Unfold(0);
    Shifted(h, c, y, a);
    DivUnique(w * a, ca, h, y * a);
    Shifted(x, e, r, a);
    DivUnique(y * a, ea, x, r * a);
  }

  lemma Shifted(h: nat, c: nat, y: nat, a: nat)
    requires y < c && a > 0
    ensures (h * c + y) * a == (c * a) * h + y * a && 0 <= y * a < c * a
  {
    assert (c - y) * a >= a by { NoGap(a, c - y); }
    assert (c - y) * a == c * a - y * a;
  }

  // ----- Digits -----

  /** The n low binary digits of v. */
  function BitsOf(v: nat, n: nat): (b: seq<nat>)
    ensures |b| == n
  {
    if n == 0 then [] else BitsOf(v / 2, n - 1) + [v % 2]
  }

  /** The bits of the memory from p on are those of b. */
  ghost predicate Carries(m: Memory, p: nat, b: seq<nat>) {
    forall i {:trigger b[i]} :: 0 <= i < |b| ==> Bit(m, p + i) == b[i]
  }

  lemma CarriesParts(m: Memory, p: nat, a: seq<nat>, b: seq<nat>)
    requires Carries(m, p, a + b)
    ensures Carries(m, p, a) && Carries(m, p + |a|, b)
  {
    forall i | 0 <= i < |a| ensures Bit(m, p + i) == a[i] { assert (a + b)[i] == a[i]; }
    forall i | 0 <= i < |b| ensures Bit(m, p + |a| + i) == b[i] { assert (a + b)[|a| + i] == b[i]; }
  }

  lemma {:induction false} CarriesNumber(m: Memory, p: nat, v: nat, n: nat)
    requires Carries(m, p, BitsOf(v, n)) && v < Pow2(n)
    ensures Number(m, p, n) == v
    decreases n
  {
    if n > 0 {
      CarriesParts(m, p, BitsOf(v / 2, n - 1), [v % 2]);
      CarriesNumber(m, p, v / 2, n - 1);
      assert Bit(m, p + n - 1 + 0) == [v % 2][0];
    }
  }

  /** The cursor of the decoder: alac_file.input_buffer and input_buffer_bitaccumulator. */
  class BitReader {
    const memory: Memory
    /** Bytes passed, and bits passed in the current byte. */
    var byte: nat
    var acc: nat
    /** How many bytes from the start of the buffer have been looked at. */
    ghost var reach: nat

    constructor (m: Memory)
      ensures Valid() && memory == m && Cursor() == 0 && reach == 0
    {
      memory := m;
      byte, acc, reach := 0, 0, 0;
    }

    ghost predicate Valid() reads this { acc < 8 }

    /** The number of bits passed. */
    ghost function Cursor(): nat reads this { 8 * byte + acc }

    method ReadBits16(bits: nat) returns (r: nat)
      requires Valid() && bits <= 16
      modifies this`byte, this`acc, this`reach
      ensures Valid() && Cursor() == old(Cursor()) + bits
      ensures Reads(memory, old(Cursor()), bits, r)
      ensures reach == Max(old(reach), old(Cursor()) / 8 + 3)
    {
      var word := ThreeBytes(memory, byte);
      Extracted(memory, byte, acc, bits);
      r := Taken(word, acc, bits);
      reach := Max(reach, byte + 3);
      var acc' := acc + bits;
      byte, acc := byte + acc' / 8, acc' % 8;
    }

    method ReadBits(bits: nat) returns (r: u32)
      requires Valid() && bits <= 32
      modifies this
      ensures Valid() && Cursor() == old(Cursor()) + bits
      ensures Reads(memory, old(Cursor()), bits, r)
      ensures reach == Max(old(reach), old(Cursor()) / 8 + if bits > 16 then 5 else 3)
    {
      ghost var p := Cursor();
      var low;
      if bits > 16 {
        var high := ReadBits16(16);
        low := ReadBits16(bits - 16);
        var word := Join(high, bits - 16, low);
        Fits(memory, p + 16, bits - 16, low);
        JoinIs(high, bits - 16, low);
        ReadsJoined(memory, p, 16, high, bits - 16, low, word);
        low := word;
      } else {
        low := ReadBits16(bits);
      }
      Fits(memory, p, bits, low);
      r := low;
    }

    method ReadBit() returns (r: nat)
      requires Valid()
      modifies this
      ensures Valid() && Cursor() == old(Cursor()) + 1
      ensures r == Bit(memory, old(Cursor()))
      ensures reach == Max(old(reach), old(Cursor()) / 8 + 1)
    {
      TopBit(memory(byte), acc);
      r := memory(byte) * Pow2(acc) / 0x80 % 2;
      reach := Max(reach, byte + 1);
      byte, acc := byte + (acc + 1) / 8, (acc + 1) % 8;
    }

    method UnreadBits(bits: nat)
      requires Valid() && bits <= Cursor()
      modifies this`byte, this`acc
      ensures Valid() && Cursor() == old(Cursor()) - bits
    {
      var acc' := acc - bits;
      byte, acc := byte + acc' / 8, acc' % 8;
    }
  }

  lemma Fits(m: Memory, p: nat, bits: nat, r: nat)
    requires bits <= 32 && Reads(m, p, bits, r)
    ensures r < TWO32 && r < Pow2(bits)
  {
    assert Unfold(0);
    NumberBound(m, p, bits);
    Pow2Mono(bits, 32);
    Pow2Constants();
  }

  function Max(a: nat, b: nat): nat { if a < b then b else a }

  lemma TopBit(b: u8, acc: nat)
    requires acc < 8
    ensures b * Pow2(acc) / 0x80 == b / Pow2(7 - acc)
  {
    var e := 7 - acc;
    Pow2Product(e, acc);
    Pow2Constants();
    TopNumbers(b, Pow2(acc), Pow2(e), Pow2(e + acc));
  }

  lemma TopNumbers(b: nat, a: nat, e: nat, ea: nat)
    requires a > 0 && e > 0 && Product(ea, e, a)
    ensures ea > 0 && b * a / ea == b / e
  {
    assert Unfold(0);
    var q, r := b / e, b % e;
    assert b == q * e + r;
    Shifted(q, e, r, a);
    DivUnique(b * a, ea, q, r * a);
  }
}
