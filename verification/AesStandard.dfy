/** The S-box of FIPS 197 and the tables of aes.c built from it: the standard instance of the field that the other AES
    modules are stated for. */
module AesStandard {
  import opened Words
  import opened AesField
  import opened AesCipher
  import opened AesTables
  import opened Aes

  // ---- Multiplication, section 4.2 -------------------------------------------------------------------

  /** The multiple p of a power of x, when that power occurs in a. */
  function Term(a: bv8, bit: bv8, p: bv8): bv8 { if a & bit != 0 then p else 0 }

  function Mul(a: bv8, b: bv8): bv8 {
    var b1 := XTime(b);
    var b2 := XTime(b1);
    var b3 := XTime(b2);
    var b4 := XTime(b3);
    var b5 := XTime(b4);
    var b6 := XTime(b5);
    var b7 := XTime(b6);
    Term(a, 0x01, b) ^ Term(a, 0x02, b1) ^ Term(a, 0x04, b2) ^ Term(a, 0x08, b3)
      ^ Term(a, 0x10, b4) ^ Term(a, 0x20, b5) ^ Term(a, 0x40, b6) ^ Term(a, 0x80, b7)
  }

  function Inverse0(b: bv8): bv8 {
    if b & 0x08 == 0 then
      if b & 0x04 == 0 then
        if b & 0x02 == 0 then (if b & 0x01 == 0 then 0x00 else 0x01) else (if b & 0x01 == 0 then 0x8D else 0xF6)
      else
        if b & 0x02 == 0 then (if b & 0x01 == 0 then 0xCB else 0x52) else (if b & 0x01 == 0 then 0x7B else 0xD1)
    else
      if b & 0x04 == 0 then
        if b & 0x02 == 0 then (if b & 0x01 == 0 then 0xE8 else 0x4F) else (if b & 0x01 == 0 then 0x29 else 0xC0)
      else
        if b & 0x02 == 0 then (if b & 0x01 == 0 then 0xB0 else 0xE1) else (if b & 0x01 == 0 then 0xE5 else 0xC7)
  }

  function Inverse1(b: bv8): bv8 {
    if b & 0x08 == 0 then
      if b & 0x04 == 0 then
        if b & 0x02 == 0 then (if b & 0x01 == 0 then 0x74 else 0xB4) else (if b & 0x01 == 0 then 0xAA else 0x4B)
      else
        if b & 0x02 == 0 then (if b & 0x01 == 0 then 0x99 else 0x2B) else (if b & 0x01 == 0 then 0x60 else 0x5F)
    else
      if b & 0x04 == 0 then
        if b & 0x02 == 0 then (if b & 0x01 == 0 then 0x58 else 0x3F) else (if b & 0x01 == 0 then 0xFD else 0xCC)
      else
        if b & 0x02 == 0 then (if b & 0x01 == 0 then 0xFF else 0x40) else (if b & 0x01 == 0 then 0xEE else 0xB2)
  }

  function Inverse2(b: bv8): bv8 {
    if b & 0x08 == 0 then
      if b & 0x04 == 0 then
        if b & 0x02 == 0 then (if b & 0x01 == 0 then 0x3A else 0x6E) else (if b & 0x01 == 0 then 0x5A else 0xF1)
      else
        if b & 0x02 == 0 then (if b & 0x01 == 0 then 0x55 else 0x4D) else (if b & 0x01 == 0 then 0xA8 else 0xC9)
    else
      if b & 0x04 == 0 then
        if b & 0x02 == 0 then (if b & 0x01 == 0 then 0xC1 else 0x0A) else (if b & 0x01 == 0 then 0x98 else 0x15)
      else
        if b & 0x02 == 0 then (if b & 0x01 == 0 then 0x30 else 0x44) else (if b & 0x01 == 0 then 0xA2 else 0xC2)
  }

  function Inverse3(b: bv8): bv8 {
    if b & 0x08 == 0 then
      if b & 0x04 == 0 then
        if b & 0x02 == 0 then (if b & 0x01 == 0 then 0x2C else 0x45) else (if b & 0x01 == 0 then 0x92 else 0x6C)
      else
        if b & 0x02 == 0 then (if b & 0x01 == 0 then 0xF3 else 0x39) else (if b & 0x01 == 0 then 0x66 else 0x42)
    else
      if b & 0x04 == 0 then
        if b & 0x02 == 0 then (if b & 0x01 == 0 then 0xF2 else 0x35) else (if b & 0x01 == 0 then 0x20 else 0x6F)
      else
        if b & 0x02 == 0 then (if b & 0x01 == 0 then 0x77 else 0xBB) else (if b & 0x01 == 0 then 0x59 else 0x19)
  }

  function Inverse4(b: bv8): bv8 {
    if b & 0x08 == 0 then
      if b & 0x04 == 0 then
        if b & 0x02 == 0 then (if b & 0x01 == 0 then 0x1D else 0xFE) else (if b & 0x01 == 0 then 0x37 else 0x67)
      else
        if b & 0x02 == 0 then (if b & 0x01 == 0 then 0x2D else 0x31) else (if b & 0x01 == 0 then 0xF5 else 0x69)
    else
      if b & 0x04 == 0 then
        if b & 0x02 == 0 then (if b & 0x01 == 0 then 0xA7 else 0x64) else (if b & 0x01 == 0 then 0xAB else 0x13)
      else
        if b & 0x02 == 0 then (if b & 0x01 == 0 then 0x54 else 0x25) else (if b & 0x01 == 0 then 0xE9 else 0x09)
  }

  function Inverse5(b: bv8): bv8 {
    if b & 0x08 == 0 then
      if b & 0x04 == 0 then
        if b & 0x02 == 0 then (if b & 0x01 == 0 then 0xED else 0x5C) else (if b & 0x01 == 0 then 0x05 else 0xCA)
      else
        if b & 0x02 == 0 then (if b & 0x01 == 0 then 0x4C else 0x24) else (if b & 0x01 == 0 then 0x87 else 0xBF)
    else
      if b & 0x04 == 0 then
        if b & 0x02 == 0 then (if b & 0x01 == 0 then 0x18 else 0x3E) else (if b & 0x01 == 0 then 0x22 else 0xF0)
      else
        if b & 0x02 == 0 then (if b & 0x01 == 0 then 0x51 else 0xEC) else (if b & 0x01 == 0 then 0x61 else 0x17)
  }

  function Inverse6(b: bv8): bv8 {
    if b & 0x08 == 0 then
      if b & 0x04 == 0 then
        if b & 0x02 == 0 then (if b & 0x01 == 0 then 0x16 else 0x5E) else (if b & 0x01 == 0 then 0xAF else 0xD3)
      else
        if b & 0x02 == 0 then (if b & 0x01 == 0 then 0x49 else 0xA6) else (if b & 0x01 == 0 then 0x36 else 0x43)
    else
      if b & 0x04 == 0 then
        if b & 0x02 == 0 then (if b & 0x01 == 0 then 0xF4 else 0x47) else (if b & 0x01 == 0 then 0x91 else 0xDF)
      else
        if b & 0x02 == 0 then (if b & 0x01 == 0 then 0x33 else 0x93) else (if b & 0x01 == 0 then 0x21 else 0x3B)
  }

  function Inverse7(b: bv8): bv8 {
    if b & 0x08 == 0 then
      if b & 0x04 == 0 then
        if b & 0x02 == 0 then (if b & 0x01 == 0 then 0x79 else 0xB7) else (if b & 0x01 == 0 then 0x97 else 0x85)
      else
        if b & 0x02 == 0 then (if b & 0x01 == 0 then 0x10 else 0xB5) else (if b & 0x01 == 0 then 0xBA else 0x3C)
    else
      if b & 0x04 == 0 then
        if b & 0x02 == 0 then (if b & 0x01 == 0 then 0xB6 else 0x70) else (if b & 0x01 == 0 then 0xD0 else 0x06)
      else
        if b & 0x02 == 0 then (if b & 0x01 == 0 then 0xA1 else 0xFA) else (if b & 0x01 == 0 then 0x81 else 0x82)
  }

  function Inverse8(b: bv8): bv8 {
    if b & 0x08 == 0 then
      if b & 0x04 == 0 then
        if b & 0x02 == 0 then (if b & 0x01 == 0 then 0x83 else 0x7E) else (if b & 0x01 == 0 then 0x7F else 0x80)
      else
        if b & 0x02 == 0 then (if b & 0x01 == 0 then 0x96 else 0x73) else (if b & 0x01 == 0 then 0xBE else 0x56)
    else
      if b & 0x04 == 0 then
        if b & 0x02 == 0 then (if b & 0x01 == 0 then 0x9B else 0x9E) else (if b & 0x01 == 0 then 0x95 else 0xD9)
      else
        if b & 0x02 == 0 then (if b & 0x01 == 0 then 0xF7 else 0x02) else (if b & 0x01 == 0 then 0xB9 else 0xA4)
  }

  function Inverse9(b: bv8): bv8 {
    if b & 0x08 == 0 then
      if b & 0x04 == 0 then
        if b & 0x02 == 0 then (if b & 0x01 == 0 then 0xDE else 0x6A) else (if b & 0x01 == 0 then 0x32 else 0x6D)
      else
        if b & 0x02 == 0 then (if b & 0x01 == 0 then 0xD8 else 0x8A) else (if b & 0x01 == 0 then 0x84 else 0x72)
    else
      if b & 0x04 == 0 then
        if b & 0x02 == 0 then (if b & 0x01 == 0 then 0x2A else 0x14) else (if b & 0x01 == 0 then 0x9F else 0x88)
      else
        if b & 0x02 == 0 then (if b & 0x01 == 0 then 0xF9 else 0xDC) else (if b & 0x01 == 0 then 0x89 else 0x9A)
  }

  function InverseA(b: bv8): bv8 {
    if b & 0x08 == 0 then
      if b & 0x04 == 0 then
        if b & 0x02 == 0 then (if b & 0x01 == 0 then 0xFB else 0x7C) else (if b & 0x01 == 0 then 0x2E else 0xC3)
      else
        if b & 0x02 == 0 then (if b & 0x01 == 0 then 0x8F else 0xB8) else (if b & 0x01 == 0 then 0x65 else 0x48)
    else
      if b & 0x04 == 0 then
        if b & 0x02 == 0 then (if b & 0x01 == 0 then 0x26 else 0xC8) else (if b & 0x01 == 0 then 0x12 else 0x4A)
      else
        if b & 0x02 == 0 then (if b & 0x01 == 0 then 0xCE else 0xE7) else (if b & 0x01 == 0 then 0xD2 else 0x62)
  }

  function InverseB(b: bv8): bv8 {
    if b & 0x08 == 0 then
      if b & 0x04 == 0 then
        if b & 0x02 == 0 then (if b & 0x01 == 0 then 0x0C else 0xE0) else (if b & 0x01 == 0 then 0x1F else 0xEF)
      else
        if b & 0x02 == 0 then (if b & 0x01 == 0 then 0x11 else 0x75) else (if b & 0x01 == 0 then 0x78 else 0x71)
    else
      if b & 0x04 == 0 then
        if b & 0x02 == 0 then (if b & 0x01 == 0 then 0xA5 else 0x8E) else (if b & 0x01 == 0 then 0x76 else 0x3D)
      else
        if b & 0x02 == 0 then (if b & 0x01 == 0 then 0xBD else 0xBC) else (if b & 0x01 == 0 then 0x86 else 0x57)
  }

  function InverseC(b: bv8): bv8 {
    if b & 0x08 == 0 then
      if b & 0x04 == 0 then
        if b & 0x02 == 0 then (if b & 0x01 == 0 then 0x0B else 0x28) else (if b & 0x01 == 0 then 0x2F else 0xA3)
      else
        if b & 0x02 == 0 then (if b & 0x01 == 0 then 0xDA else 0xD4) else (if b & 0x01 == 0 then 0xE4 else 0x0F)
    else
      if b & 0x04 == 0 then
        if b & 0x02 == 0 then (if b & 0x01 == 0 then 0xA9 else 0x27) else (if b & 0x01 == 0 then 0x53 else 0x04)
      else
        if b & 0x02 == 0 then (if b & 0x01 == 0 then 0x1B else 0xFC) else (if b & 0x01 == 0 then 0xAC else 0xE6)
  }

  function InverseD(b: bv8): bv8 {
    if b & 0x08 == 0 then
      if b & 0x04 == 0 then
        if b & 0x02 == 0 then (if b & 0x01 == 0 then 0x7A else 0x07) else (if b & 0x01 == 0 then 0xAE else 0x63)
      else
        if b & 0x02 == 0 then (if b & 0x01 == 0 then 0xC5 else 0xDB) else (if b & 0x01 == 0 then 0xE2 else 0xEA)
    else
      if b & 0x04 == 0 then
        if b & 0x02 == 0 then (if b & 0x01 == 0 then 0x94 else 0x8B) else (if b & 0x01 == 0 then 0xC4 else 0xD5)
      else
        if b & 0x02 == 0 then (if b & 0x01 == 0 then 0x9D else 0xF8) else (if b & 0x01 == 0 then 0x90 else 0x6B)
  }

  function InverseE(b: bv8): bv8 {
    if b & 0x08 == 0 then
      if b & 0x04 == 0 then
        if b & 0x02 == 0 then (if b & 0x01 == 0 then 0xB1 else 0x0D) else (if b & 0x01 == 0 then 0xD6 else 0xEB)
      else
        if b & 0x02 == 0 then (if b & 0x01 == 0 then 0xC6 else 0x0E) else (if b & 0x01 == 0 then 0xCF else 0xAD)
    else
      if b & 0x04 == 0 then
        if b & 0x02 == 0 then (if b & 0x01 == 0 then 0x08 else 0x4E) else (if b & 0x01 == 0 then 0xD7 else 0xE3)
      else
        if b & 0x02 == 0 then (if b & 0x01 == 0 then 0x5D else 0x50) else (if b & 0x01 == 0 then 0x1E else 0xB3)
  }

  function InverseF(b: bv8): bv8 {
    if b & 0x08 == 0 then
      if b & 0x04 == 0 then
        if b & 0x02 == 0 then (if b & 0x01 == 0 then 0x5B else 0x23) else (if b & 0x01 == 0 then 0x38 else 0x34)
      else
        if b & 0x02 == 0 then (if b & 0x01 == 0 then 0x68 else 0x46) else (if b & 0x01 == 0 then 0x03 else 0x8C)
    else
      if b & 0x04 == 0 then
        if b & 0x02 == 0 then (if b & 0x01 == 0 then 0xDD else 0x9C) else (if b & 0x01 == 0 then 0x7D else 0xA0)
      else
        if b & 0x02 == 0 then (if b & 0x01 == 0 then 0xCD else 0x1A) else (if b & 0x01 == 0 then 0x41 else 0x1C)
  }

  /** The inverse of b in the field, and 0 for 0: a table by rows of sixteen. */
  function Inverse(b: bv8): bv8 {
    if b & 0x80 == 0 then
      if b & 0x40 == 0 then
        if b & 0x20 == 0 then (if b & 0x10 == 0 then Inverse0(b) else Inverse1(b))
        else (if b & 0x10 == 0 then Inverse2(b) else Inverse3(b))
      else
        if b & 0x20 == 0 then (if b & 0x10 == 0 then Inverse4(b) else Inverse5(b))
        else (if b & 0x10 == 0 then Inverse6(b) else Inverse7(b))
    else
      if b & 0x40 == 0 then
        if b & 0x20 == 0 then (if b & 0x10 == 0 then Inverse8(b) else Inverse9(b))
        else (if b & 0x10 == 0 then InverseA(b) else InverseB(b))
      else
        if b & 0x20 == 0 then (if b & 0x10 == 0 then InverseC(b) else InverseD(b))
        else (if b & 0x10 == 0 then InverseE(b) else InverseF(b))
  }

  /** The table is the multiplicative inverse, section 4.2. */
  lemma InverseIs(b: bv8)
    ensures if b == 0 then Inverse(b) == 0 else Mul(b, Inverse(b)) == 1
  {}

  lemma InverseTwice(b: bv8)
    ensures Inverse(Inverse(b)) == b
  {}

  // ---- The S-box, sections 5.1.1 and 5.3.2 -----------------------------------------------------------

  function Rotated(b: bv8): bv8 { (b << 1) | (b >> 7) }

  /** The affine transformation, as aes_gen_tables computes it: four rotations and the constant. */
  function Affine(x: bv8): bv8 {
    var y1 := Rotated(x);
    var y2 := Rotated(y1);
    var y3 := Rotated(y2);
    var y4 := Rotated(y3);
    x ^ y1 ^ y2 ^ y3 ^ (y4 ^ 0x63)
  }

  function InvAffine(x: bv8): bv8 {
    var y1 := Rotated(x);
    var y3 := Rotated(Rotated(y1));
    var y6 := Rotated(Rotated(Rotated(y3)));
    y1 ^ y3 ^ y6 ^ 0x05
  }

  lemma AffineTwice(x: bv8)
    ensures InvAffine(Affine(x)) == x && Affine(InvAffine(x)) == x
  {}

  function Sub(b: bv8): bv8 { Affine(Inverse(b)) }

  function InvSub(b: bv8): bv8 { Inverse(InvAffine(b)) }

  /** The S-box is a bijection, for all 256 bytes. */
  lemma SubTwice(b: bv8)
    ensures InvSub(Sub(b)) == b && Sub(InvSub(b)) == b
  {
    AffineTwice(Inverse(b));
    AffineTwice(b);
    InverseTwice(b);
    InverseTwice(InvAffine(b));
  }

  function Standard(): Field { Field(b => XTime(b), b => Sub(b), b => InvSub(b)) }

  lemma StandardValid()
    ensures Standard().Valid()
  {
    forall b ensures InvSub(Sub(b)) == b { SubTwice(b); }
    StandardField(b => Sub(b), b => InvSub(b));
  }

  // ---- The tables --------------------------------------------------------------------------------------

  function RotR8(w: bv32): bv32 { (w << 24) | (w >> 8) }

  /** A word put together from its low byte up. */
  function FromLow(b3: bv8, b2: bv8, b1: bv8, b0: bv8): bv32 {
    XorWord(XorWord(XorWord(b3 as bv32, (b2 as bv32) << 8), (b1 as bv32) << 16), (b0 as bv32) << 24)
  }

  lemma FromLowIs(c: Col)
    ensures FromLow(c.b3, c.b2, c.b1, c.b0) == Word(c)
  {
    WordFromParts(c);
    Swapped((c.b0 as bv32) << 24, (c.b1 as bv32) << 16, (c.b2 as bv32) << 8, c.b3 as bv32, Word(c));
    FromLowParts(c.b3, c.b2, c.b1, c.b0, (c.b0 as bv32) << 24, (c.b1 as bv32) << 16, (c.b2 as bv32) << 8, c.b3 as bv32);
  }

  lemma FromLowParts(b3: bv8, b2: bv8, b1: bv8, b0: bv8, p: bv32, q: bv32, r: bv32, s: bv32)
    requires p == (b0 as bv32) << 24 && q == (b1 as bv32) << 16 && r == (b2 as bv32) << 8 && s == b3 as bv32
    ensures FromLow(b3, b2, b1, b0) == XorWord(XorWord(XorWord(s, r), q), p)
  {}

  lemma Swapped(p: bv32, q: bv32, r: bv32, s: bv32, w: bv32)
    requires XorWord(XorWord(XorWord(p, q), r), s) == w
    ensures XorWord(XorWord(XorWord(s, r), q), p) == w
  {
    FourSwapped(p, q, r, s);
  }

  lemma XorWordComm(a: bv32, b: bv32)
    ensures XorWord(a, b) == XorWord(b, a)
  {}

  lemma FourSwapped(p: bv32, q: bv32, r: bv32, s: bv32)
    ensures XorWord(XorWord(XorWord(p, q), r), s) == XorWord(XorWord(XorWord(s, r), q), p)
  {
    var pq := XorWord(p, q);
    XorWordComm(XorWord(pq, r), s);
    XorWordComm(pq, r);
    XorWordAssoc(s, r, pq);
    XorWordComm(p, q);
    XorWordAssoc(XorWord(s, r), q, p);
  }

  /** FT0, from the S-box value and its double. */
  function Forward0(x: bv8): bv32 {
    var y := XTime(x);
    FromLow(Add(x, y), x, x, y)
  }

  /** RT0, from the inverse S-box value. */
  function Reverse0(y: bv8): bv32 {
    FromLow(Mul(0x0B, y), Mul(0x0D, y), Mul(0x09, y), Mul(0x0E, y))
  }

  function Widened(b: bv8): bv32 { b as bv32 }

  function StandardTables(): Tables {
    Tables(b => Widened(Sub(b)), b => Forward0(Sub(b)), b => RotR8(Forward0(Sub(b))),
          b => RotR8(RotR8(Forward0(Sub(b)))),
           b => RotR8(RotR8(RotR8(Forward0(Sub(b))))),
           b => Widened(InvSub(b)), b => Reverse0(InvSub(b)), b => RotR8(Reverse0(InvSub(b))),
           b => RotR8(RotR8(Reverse0(InvSub(b)))), b => RotR8(RotR8(RotR8(Reverse0(InvSub(b))))),
           [0x0100_0000, 0x0200_0000, 0x0400_0000, 0x0800_0000, 0x1000_0000,
            0x2000_0000, 0x4000_0000, 0x8000_0000, 0x1B00_0000, 0x3600_0000])
  }

  lemma RotRIsDown(c: Col)
    ensures RotR8(Word(c)) == Word(Down(c))
  {}

  lemma Forward0Is(x: bv8)
    ensures Forward0(x) == Word(Standard().Mix0(x))
  {
    AddComm(x, XTime(x));
    FromLowIs(Col(XTime(x), x, x, Add(XTime(x), x)));
  }

  /** The small products of RT0 as the sums of doublings that InvMixColumns uses. */
  lemma Products(y: bv8)
    ensures Multiples(y, XTime(y), XTime(XTime(y)), XTime(XTime(XTime(y))))
         == Col(Mul(0x0E, y), Mul(0x09, y), Mul(0x0D, y), Mul(0x0B, y))
  {}

  lemma Reverse0Is(y: bv8)
    ensures Reverse0(y) == Word(Standard().Inv0(y))
  {
    var c := Standard().Inv0(y);
    Products(y);
    ProductsWord(y, c);
  }

  lemma ProductsWord(y: bv8, c: Col)
    requires c == Col(Mul(0x0E, y), Mul(0x09, y), Mul(0x0D, y), Mul(0x0B, y))
    ensures Reverse0(y) == Word(c)
  {
    FromLowIs(c);
  }

  /** Forward and reverse parts of an entry. */
  lemma ForwardEntry(t: Tables, f: Field, b: bv8, x: bv8)
    requires f == Standard() && t == StandardTables() && x == Sub(b)
    ensures t.FT0(b) == Word(f.Mix0(x)) && t.FT1(b) == Word(f.Mix1(x))
    ensures t.FT2(b) == Word(f.Mix2(x)) && t.FT3(b) == Word(f.Mix3(x))
  {
    Forward0Is(x);
    RotRIsDown(f.Mix0(x));
    RotRIsDown(f.Mix1(x));
    RotRIsDown(f.Mix2(x));
  }

  lemma ReverseEntry(t: Tables, f: Field, b: bv8, y: bv8)
    requires f == Standard() && t == StandardTables() && y == InvSub(b)
    ensures t.RT0(b) == Word(f.Inv0(y)) && t.RT1(b) == Word(f.Inv1(y))
    ensures t.RT2(b) == Word(f.Inv2(y)) && t.RT3(b) == Word(f.Inv3(y))
  {
    Reverse0Is(y);
    RotRIsDown(f.Inv0(y));
    RotRIsDown(f.Inv1(y));
    RotRIsDown(f.Inv2(y));
  }

  lemma EntryIs(t: Tables, f: Field, b: bv8)
    requires f == Standard() && t == StandardTables()
    ensures Entry(t, f, b)
  {
    var x, y := Sub(b), InvSub(b);
    ForwardEntry(t, f, b, x);
    ReverseEntry(t, f, b, y);
    EntryBy(t, f, b, x, y);
  }

  lemma EntryBy(t: Tables, f: Field, b: bv8, x: bv8, y: bv8)
    requires f.sub(b) == x && f.invSub(b) == y && t.FSb(b) == Widened(x) && t.RSb(b) == Widened(y)
    requires t.FT0(b) == Word(f.Mix0(x)) && t.FT1(b) == Word(f.Mix1(x))
    requires t.FT2(b) == Word(f.Mix2(x)) && t.FT3(b) == Word(f.Mix3(x))
    requires t.RT0(b) == Word(f.Inv0(y)) && t.RT1(b) == Word(f.Inv1(y))
    requires t.RT2(b) == Word(f.Inv2(y)) && t.RT3(b) == Word(f.Inv3(y))
    ensures Entry(t, f, b)
  {}

  /** One more doubling. */
  lemma RconStep(i: nat, b: bv8)
    requires i >= 1 && RconByte(Standard(), i) == b
    ensures RconByte(Standard(), i + 1) == XTime(b)
  {}

  lemma ConstantIs(i: nat)
    requires i < 10
    ensures Constant(StandardTables(), Standard(), i)
  {
    var f := Standard();
    RconStep(1, 0x01); RconStep(2, 0x02); RconStep(3, 0x04); RconStep(4, 0x08); RconStep(5, 0x10);
    RconStep(6, 0x20); RconStep(7, 0x40); RconStep(8, 0x80); RconStep(9, 0x1B);
  }

  /** The tables are those that the other modules ask for. */
  lemma StandardGenerated()
    ensures Generated(StandardTables(), Standard())
  {
    forall b ensures Entry(StandardTables(), Standard(), b) { EntryIs(StandardTables(), Standard(), b); }
    forall i: nat | i < 10 ensures Constant(StandardTables(), Standard(), i) { ConstantIs(i); }
  }

  // ---- AES -----------------------------------------------------------------------------------------------

  /** For every key of 128, 192 or 256 bits and every block, decryption undoes encryption. */
  lemma StandardRoundTrip(key: seq<Col>, block: seq<bv8>)
    requires |key| == 4 || |key| == 6 || |key| == 8
    requires |block| == 16
    ensures DecryptBlock(Standard(), key, EncryptBlock(Standard(), key, block)) == block
  {
    StandardValid();
    DecryptEncryptBlock(Standard(), key, block);
  }

  /** A block encrypted in place and decrypted in place. */
  method ThereAndBack(ctx: AesContext, t: Tables, data: array<bv8>, o: nat) returns (middle: seq<bv8>)
    requires ctx.Valid() && Generated(t, ctx.field) && ctx.field.Valid() && o + 16 <= data.Length
    modifies data
    ensures |ctx.key| >= 4 && middle == EncryptBlock(ctx.field, ctx.key, old(data[o..o + 16]))
    ensures data[..] == old(data[..])
  {
    ghost var before := data[..];
    ctx.Encrypt(t, data, o, data, o);
    middle := data[o..o + 16];
    ctx.Decrypt(t, data, o, data, o);
    DecryptEncryptBlock(ctx.field, ctx.key, before[o..o + 16]);
    SameOutside(o, before, data[..]);
  }

  method NewContext(t: Tables, f: Field, bytes: array<bv8>, nbits: int) returns (ctx: AesContext)
    requires nbits == 128 || nbits == 192 || nbits == 256
    requires 8 * bytes.Length >= nbits && Generated(t, f) && f.Valid()
    ensures fresh(ctx) && ctx.Valid() && ctx.field == f && ctx.key == KeyCols(bytes[..], nbits / 32)
  {
    ctx := new AesContext(f);
    var r := ctx.SetKey(t, f, bytes, nbits);
  }

  lemma StandardReady()
    ensures Standard().Valid() && Generated(StandardTables(), Standard())
  {
    StandardValid();
    StandardGenerated();
  }

  /** aes_set_key, aes_encrypt and aes_decrypt with the tables of aes_gen_tables, in place. The bytes in between are the
      cipher's. */
  method EncryptAndDecrypt(bytes: array<bv8>, nbits: int, data: array<bv8>, o: nat) returns (middle: seq<bv8>)
    requires nbits == 128 || nbits == 192 || nbits == 256
    requires 8 * bytes.Length >= nbits && bytes != data && o + 16 <= data.Length
    modifies data
    ensures middle == EncryptBlock(Standard(), KeyCols(bytes[..], nbits / 32), old(data[o..o + 16]))
    ensures data[..] == old(data[..])
  {
    StandardReady();
    var t, f := StandardTables(), Standard();
    ghost var key := KeyCols(bytes[..], nbits / 32);
    var ctx := NewContext(t, f, bytes, nbits);
    middle := ThereAndBack(ctx, t, data, o);
  }

  lemma SameOutside(o: nat, a: seq<bv8>, b: seq<bv8>)
    requires |a| == |b| && o + 16 <= |a| && a[o..o + 16] == b[o..o + 16]
    requires forall i :: 0 <= i < |a| && !(o <= i < o + 16) ==> a[i] == b[i]
    ensures a == b
  {
    forall i | 0 <= i < |a| ensures a[i] == b[i] {
      if o <= i < o + 16 { assert a[i] == a[o..o + 16][i - o]; }
    }
  }
}
