/** The values that FIPS 197 prints: of the S-box (figure 7), of the key expansions of appendix A, and of the cipher of
    appendix B. They fix the standard instance apart from the functions it is defined by. */
module AesVectors {
  import opened Words
  import opened AesField
  import opened AesCipher
  import opened AesTables
  import opened Aes
  import opened AesStandard

  // ---- The S-box and the round constants -------------------------------------------------------------

  /** The first row of the figure, the example of section 5.1.1 and the corners. */
  lemma SubValues()
    ensures Sub(0x00) == 0x63 && Sub(0x01) == 0x7C && Sub(0x02) == 0x77 && Sub(0x03) == 0x7B
    ensures Sub(0x04) == 0xF2 && Sub(0x05) == 0x6B && Sub(0x06) == 0x6F && Sub(0x07) == 0xC5
    ensures Sub(0x08) == 0x30 && Sub(0x09) == 0x01 && Sub(0x0A) == 0x67 && Sub(0x0B) == 0x2B
    ensures Sub(0x0C) == 0xFE && Sub(0x0D) == 0xD7 && Sub(0x0E) == 0xAB && Sub(0x0F) == 0x76
    ensures Sub(0x53) == 0xED && Sub(0xF0) == 0x8C && Sub(0xFF) == 0x16
  {}

  /** The ten constants of the table in appendix A.1. */
  lemma RconValues()
    ensures RconByte(Standard(), 1) == 0x01 && RconByte(Standard(), 2) == 0x02 && RconByte(Standard(), 3) == 0x04
    ensures RconByte(Standard(), 4) == 0x08 && RconByte(Standard(), 5) == 0x10 && RconByte(Standard(), 6) == 0x20
    ensures RconByte(Standard(), 7) == 0x40 && RconByte(Standard(), 8) == 0x80 && RconByte(Standard(), 9) == 0x1B
    ensures RconByte(Standard(), 10) == 0x36
  {
    RconStep(1, 0x01); RconStep(2, 0x02); RconStep(3, 0x04); RconStep(4, 0x08); RconStep(5, 0x10);
    RconStep(6, 0x20); RconStep(7, 0x40); RconStep(8, 0x80); RconStep(9, 0x1B);
  }

  // ---- Appendix B ------------------------------------------------------------------------------------------

  /** The round keys, which are the words of appendix A.1. */
  const K0 := State(Col(0x2B, 0x7E, 0x15, 0x16), Col(0x28, 0xAE, 0xD2, 0xA6),
                    Col(0xAB, 0xF7, 0x15, 0x88), Col(0x09, 0xCF, 0x4F, 0x3C))
  const K1 := State(Col(0xA0, 0xFA, 0xFE, 0x17), Col(0x88, 0x54, 0x2C, 0xB1),
                    Col(0x23, 0xA3, 0x39, 0x39), Col(0x2A, 0x6C, 0x76, 0x05))
  const K2 := State(Col(0xF2, 0xC2, 0x95, 0xF2), Col(0x7A, 0x96, 0xB9, 0x43),
                    Col(0x59, 0x35, 0x80, 0x7A), Col(0x73, 0x59, 0xF6, 0x7F))
  const K3 := State(Col(0x3D, 0x80, 0x47, 0x7D), Col(0x47, 0x16, 0xFE, 0x3E),
                    Col(0x1E, 0x23, 0x7E, 0x44), Col(0x6D, 0x7A, 0x88, 0x3B))
  const K4 := State(Col(0xEF, 0x44, 0xA5, 0x41), Col(0xA8, 0x52, 0x5B, 0x7F),
                    Col(0xB6, 0x71, 0x25, 0x3B), Col(0xDB, 0x0B, 0xAD, 0x00))
  const K5 := State(Col(0xD4, 0xD1, 0xC6, 0xF8), Col(0x7C, 0x83, 0x9D, 0x87),
                    Col(0xCA, 0xF2, 0xB8, 0xBC), Col(0x11, 0xF9, 0x15, 0xBC))
  const K6 := State(Col(0x6D, 0x88, 0xA3, 0x7A), Col(0x11, 0x0B, 0x3E, 0xFD),
                    Col(0xDB, 0xF9, 0x86, 0x41), Col(0xCA, 0x00, 0x93, 0xFD))
  const K7 := State(Col(0x4E, 0x54, 0xF7, 0x0E), Col(0x5F, 0x5F, 0xC9, 0xF3),
                    Col(0x84, 0xA6, 0x4F, 0xB2), Col(0x4E, 0xA6, 0xDC, 0x4F))
  const K8 := State(Col(0xEA, 0xD2, 0x73, 0x21), Col(0xB5, 0x8D, 0xBA, 0xD2),
                    Col(0x31, 0x2B, 0xF5, 0x60), Col(0x7F, 0x8D, 0x29, 0x2F))
  const K9 := State(Col(0xAC, 0x77, 0x66, 0xF3), Col(0x19, 0xFA, 0xDC, 0x21),
                    Col(0x28, 0xD1, 0x29, 0x41), Col(0x57, 0x5C, 0x00, 0x6E))
  const K10 := State(Col(0xD0, 0x14, 0xF9, 0xA8), Col(0xC9, 0xEE, 0x25, 0x89),
                    Col(0xE1, 0x3F, 0x0C, 0xC8), Col(0xB6, 0x63, 0x0C, 0xA6))

  /** The state at the start of each round, and at the end. */
  const S1 := State(Col(0x19, 0x3D, 0xE3, 0xBE), Col(0xA0, 0xF4, 0xE2, 0x2B),
                    Col(0x9A, 0xC6, 0x8D, 0x2A), Col(0xE9, 0xF8, 0x48, 0x08))
  const S2 := State(Col(0xA4, 0x9C, 0x7F, 0xF2), Col(0x68, 0x9F, 0x35, 0x2B),
                    Col(0x6B, 0x5B, 0xEA, 0x43), Col(0x02, 0x6A, 0x50, 0x49))
  const S3 := State(Col(0xAA, 0x8F, 0x5F, 0x03), Col(0x61, 0xDD, 0xE3, 0xEF),
                    Col(0x82, 0xD2, 0x4A, 0xD2), Col(0x68, 0x32, 0x46, 0x9A))
  const S4 := State(Col(0x48, 0x6C, 0x4E, 0xEE), Col(0x67, 0x1D, 0x9D, 0x0D),
                    Col(0x4D, 0xE3, 0xB1, 0x38), Col(0xD6, 0x5F, 0x58, 0xE7))
  const S5 := State(Col(0xE0, 0x92, 0x7F, 0xE8), Col(0xC8, 0x63, 0x63, 0xC0),
                    Col(0xD9, 0xB1, 0x35, 0x50), Col(0x85, 0xB8, 0xBE, 0x01))
  const S6 := State(Col(0xF1, 0x00, 0x6F, 0x55), Col(0xC1, 0x92, 0x4C, 0xEF),
                    Col(0x7C, 0xC8, 0x8B, 0x32), Col(0x5D, 0xB5, 0xD5, 0x0C))
  const S7 := State(Col(0x26, 0x0E, 0x2E, 0x17), Col(0x3D, 0x41, 0xB7, 0x7D),
                    Col(0xE8, 0x64, 0x72, 0xA9), Col(0xFD, 0xD2, 0x8B, 0x25))
  const S8 := State(Col(0x5A, 0x41, 0x42, 0xB1), Col(0x19, 0x49, 0xDC, 0x1F),
                    Col(0xA3, 0xE0, 0x19, 0x65), Col(0x7A, 0x8C, 0x04, 0x0C))
  const S9 := State(Col(0xEA, 0x83, 0x5C, 0xF0), Col(0x04, 0x45, 0x33, 0x2D),
                    Col(0x65, 0x5D, 0x98, 0xAD), Col(0x85, 0x96, 0xB0, 0xC5))
  const S10 := State(Col(0xEB, 0x40, 0xF2, 0x1E), Col(0x59, 0x2E, 0x38, 0x84),
                    Col(0x8B, 0xA1, 0x13, 0xE7), Col(0x1B, 0xC3, 0x42, 0xD2))
  const S11 := State(Col(0x39, 0x25, 0x84, 0x1D), Col(0x02, 0xDC, 0x09, 0xFB),
                    Col(0xDC, 0x11, 0x85, 0x97), Col(0x19, 0x6A, 0x0B, 0x32))

  /** The state after ShiftRows. */
  const M1 := State(Col(0xD4, 0xBF, 0x5D, 0x30), Col(0xE0, 0xB4, 0x52, 0xAE),
                    Col(0xB8, 0x41, 0x11, 0xF1), Col(0x1E, 0x27, 0x98, 0xE5))
  const M2 := State(Col(0x49, 0xDB, 0x87, 0x3B), Col(0x45, 0x39, 0x53, 0x89),
                    Col(0x7F, 0x02, 0xD2, 0xF1), Col(0x77, 0xDE, 0x96, 0x1A))
  const M3 := State(Col(0xAC, 0xC1, 0xD6, 0xB8), Col(0xEF, 0xB5, 0x5A, 0x7B),
                    Col(0x13, 0x23, 0xCF, 0xDF), Col(0x45, 0x73, 0x11, 0xB5))
  const M4 := State(Col(0x52, 0xA4, 0xC8, 0x94), Col(0x85, 0x11, 0x6A, 0x28),
                    Col(0xE3, 0xCF, 0x2F, 0xD7), Col(0xF6, 0x50, 0x5E, 0x07))
  const M5 := State(Col(0xE1, 0xFB, 0x96, 0x7C), Col(0xE8, 0xC8, 0xAE, 0x9B),
                    Col(0x35, 0x6C, 0xD2, 0xBA), Col(0x97, 0x4F, 0xFB, 0x53))
  const M6 := State(Col(0xA1, 0x4F, 0x3D, 0xFE), Col(0x78, 0xE8, 0x03, 0xFC),
                    Col(0x10, 0xD5, 0xA8, 0xDF), Col(0x4C, 0x63, 0x29, 0x23))
  const M7 := State(Col(0xF7, 0x83, 0x40, 0x3F), Col(0x27, 0x43, 0x3D, 0xF0),
                    Col(0x9B, 0xB5, 0x31, 0xFF), Col(0x54, 0xAB, 0xA9, 0xD3))
  const M8 := State(Col(0xBE, 0x3B, 0xD4, 0xFE), Col(0xD4, 0xE1, 0xF2, 0xC8),
                    Col(0x0A, 0x64, 0x2C, 0xC0), Col(0xDA, 0x83, 0x86, 0x4D))
  const M9 := State(Col(0x87, 0x6E, 0x46, 0xA6), Col(0xF2, 0x4C, 0xE7, 0x8C),
                    Col(0x4D, 0x90, 0x4A, 0xD8), Col(0x97, 0xEC, 0xC3, 0x95))
  const M10 := State(Col(0xE9, 0x31, 0x7D, 0xB5), Col(0xCB, 0x32, 0x2C, 0x72),
                    Col(0x3D, 0x2E, 0x89, 0x5F), Col(0xAF, 0x09, 0x07, 0x94))

  // ---- The key expansion -------------------------------------------------------------------------------

  /** Round key r of an expanded key. */
  ghost predicate RoundKeyIs(key: seq<Col>, r: nat, k: State)
    requires |key| >= 4
  {
    forall u {:trigger Unfold(u)} :: u == 0 ==> RoundKey(Standard(), key, r) == k
  }

  /** Word n of an expanded key. */
  ghost predicate WordIs(key: seq<Col>, n: nat, w: Col)
    requires |key| >= 4
  {
    forall u {:trigger Unfold(u)} :: u == 0 ==> KeyWord(Standard(), key, n) == w
  }

  ghost predicate RconIs(n: nat, rc: bv8)
    requires n >= 1
  {
    forall u {:trigger Unfold(u)} :: u == 0 ==> RconByte(Standard(), n) == rc
  }

  /** A word of the next group, from the word before and the one a group back. */
  lemma NextWord(key: seq<Col>, i: nat, j: nat, m: nat, n: nat, back: Col, last: Col, rc: bv8, w: Col)
    requires 4 <= |key| && j < |key| && m == |key| * i + j && n == |key| + m && RconIs(i + 1, rc)
    requires WordIs(key, m, back) && WordIs(key, n - 1, last)
    requires w == if j == 0 then Xor(back, Xor(MapCol(b => Sub(b), RotWord(last)), Col(rc, 0, 0, 0)))
                  else if |key| > 6 && j == 4 then Xor(back, MapCol(b => Sub(b), last))
                  else Xor(back, last)
    ensures WordIs(key, n, w)
  {
    assert Unfold(0);
    Stepped(Standard(), key, i, j, m, n, back, last, rc);
  }

  lemma Stepped(f: Field, key: seq<Col>, i: nat, j: nat, m: nat, n: nat, back: Col, last: Col, rc: bv8)
    requires 4 <= |key| && j < |key| && m == |key| * i + j && n == |key| + m && RconByte(f, i + 1) == rc
    requires KeyWord(f, key, m) == back && KeyWord(f, key, n - 1) == last
    ensures KeyWord(f, key, n) == if j == 0 then Xor(back, Xor(MapCol(f.sub, RotWord(last)), Col(rc, 0, 0, 0)))
                                  else if |key| > 6 && j == 4 then Xor(back, MapCol(f.sub, last))
                                  else Xor(back, last)
  {
    KeyStep(f, key, i, j, m);
  }

  /** Two round keys as the expansion makes the second from the first. */
  predicate Follows(k: State, rc: bv8, next: State) {
    && next.c0 == Xor(k.c0, Xor(MapCol(b => Sub(b), RotWord(k.c3)), Col(rc, 0, 0, 0)))
    && next.c1 == Xor(k.c1, next.c0) && next.c2 == Xor(k.c2, next.c1) && next.c3 == Xor(k.c3, next.c2)
  }

  lemma WordsOf(key: seq<Col>, r: nat, m: nat, k: State)
    requires |key| >= 4 && RoundKeyIs(key, r, k) && m == 4 * r
    ensures WordIs(key, m, k.c0) && WordIs(key, m + 1, k.c1) && WordIs(key, m + 2, k.c2) && WordIs(key, m + 3, k.c3)
  {
    assert Unfold(0);
  }

  lemma RoundKeyFrom(key: seq<Col>, r: nat, m: nat, k: State)
    requires |key| >= 4 && m == 4 * r && WordIs(key, m, k.c0) && WordIs(key, m + 1, k.c1)
    requires WordIs(key, m + 2, k.c2) && WordIs(key, m + 3, k.c3)
    ensures RoundKeyIs(key, r, k)
  {
    assert Unfold(0);
    assert RoundKey(Standard(), key, r) == State(k.c0, k.c1, k.c2, k.c3) == k;
  }

  /** The next four words under a key of four. */
  lemma NextFour(key: seq<Col>, i: nat, k: State, rc: bv8, next: State)
    requires |key| == 4 && RoundKeyIs(key, i, k) && RconIs(i + 1, rc) && Follows(k, rc, next)
    ensures RoundKeyIs(key, i + 1, next)
  {
    var m := 4 * i;
    WordsOf(key, i, m, k);
    NextWord(key, i, 0, m, m + 4, k.c0, k.c3, rc, next.c0);
    NextWord(key, i, 1, m + 1, m + 5, k.c1, next.c0, rc, next.c1);
    NextWord(key, i, 2, m + 2, m + 6, k.c2, next.c1, rc, next.c2);
    NextWord(key, i, 3, m + 3, m + 7, k.c3, next.c2, rc, next.c3);
    RoundKeyFrom(key, i + 1, m + 4, next);
  }

  lemma Follows1()
    ensures Follows(K0, 0x01, K1)
  {}

  lemma Follows2()
    ensures Follows(K1, 0x02, K2)
  {}

  lemma Follows3()
    ensures Follows(K2, 0x04, K3)
  {}

  lemma Follows4()
    ensures Follows(K3, 0x08, K4)
  {}

  lemma Follows5()
    ensures Follows(K4, 0x10, K5)
  {}

  lemma Follows6()
    ensures Follows(K5, 0x20, K6)
  {}

  lemma Follows7()
    ensures Follows(K6, 0x40, K7)
  {}

  lemma Follows8()
    ensures Follows(K7, 0x80, K8)
  {}

  lemma Follows9()
    ensures Follows(K8, 0x1B, K9)
  {}

  lemma Follows10()
    ensures Follows(K9, 0x36, K10)
  {}

  /** The schedule of appendix A.1. */
  lemma Schedule128(key: seq<Col>)
    requires key == [K0.c0, K0.c1, K0.c2, K0.c3]
    ensures RoundKeyIs(key, 0, K0)
    ensures RoundKeyIs(key, 1, K1)
    ensures RoundKeyIs(key, 2, K2)
    ensures RoundKeyIs(key, 3, K3)
    ensures RoundKeyIs(key, 4, K4)
    ensures RoundKeyIs(key, 5, K5)
    ensures RoundKeyIs(key, 6, K6)
    ensures RoundKeyIs(key, 7, K7)
    ensures RoundKeyIs(key, 8, K8)
    ensures RoundKeyIs(key, 9, K9)
    ensures RoundKeyIs(key, 10, K10)
  {
    FirstFour(key, K0, 0);
    Constants();
    Follows1(); NextFour(key, 0, K0, 0x01, K1);
    Follows2(); NextFour(key, 1, K1, 0x02, K2);
    Follows3(); NextFour(key, 2, K2, 0x04, K3);
    Follows4(); NextFour(key, 3, K3, 0x08, K4);
    Follows5(); NextFour(key, 4, K4, 0x10, K5);
    Follows6(); NextFour(key, 5, K5, 0x20, K6);
    Follows7(); NextFour(key, 6, K6, 0x40, K7);
    Follows8(); NextFour(key, 7, K7, 0x80, K8);
    Follows9(); NextFour(key, 8, K8, 0x1B, K9);
    Follows10(); NextFour(key, 9, K9, 0x36, K10);
  }

  lemma Constants()
    ensures RconIs(1, 0x01) && RconIs(2, 0x02) && RconIs(3, 0x04) && RconIs(4, 0x08) && RconIs(5, 0x10)
    ensures RconIs(6, 0x20) && RconIs(7, 0x40) && RconIs(8, 0x80) && RconIs(9, 0x1B) && RconIs(10, 0x36)
  {
    RconValues();
    RconHolds(1, 0x01); RconHolds(2, 0x02); RconHolds(3, 0x04); RconHolds(4, 0x08); RconHolds(5, 0x10);
    RconHolds(6, 0x20); RconHolds(7, 0x40); RconHolds(8, 0x80); RconHolds(9, 0x1B); RconHolds(10, 0x36);
  }

  lemma RconHolds(n: nat, rc: bv8)
    requires n >= 1 && RconByte(Standard(), n) == rc
    ensures RconIs(n, rc)
  {}

  lemma FirstWord(key: seq<Col>, j: nat)
    requires |key| >= 4 && j < |key|
    ensures WordIs(key, j, key[j])
  {
    assert KeyWord(Standard(), key, j) == key[j];
  }

  lemma FirstFour(key: seq<Col>, k: State, r: nat)
    requires key == [k.c0, k.c1, k.c2, k.c3] && r == 0
    ensures RoundKeyIs(key, r, k)
  {
    FirstWord(key, r); FirstWord(key, r + 1); FirstWord(key, r + 2); FirstWord(key, r + 3);
    RoundKeyFrom(key, r, r, k);
  }

  /** Its first words and its last. */
  lemma Words128(key: seq<Col>)
    requires key == [Col(0x2B, 0x7E, 0x15, 0x16), Col(0x28, 0xAE, 0xD2, 0xA6), Col(0xAB, 0xF7, 0x15, 0x88),
                     Col(0x09, 0xCF, 0x4F, 0x3C)]
    ensures KeyWord(Standard(), key, 4) == Col(0xA0, 0xFA, 0xFE, 0x17)
    ensures KeyWord(Standard(), key, 5) == Col(0x88, 0x54, 0x2C, 0xB1)
    ensures KeyWord(Standard(), key, 42) == Col(0xE1, 0x3F, 0x0C, 0xC8)
    ensures KeyWord(Standard(), key, 43) == Col(0xB6, 0x63, 0x0C, 0xA6)
  {
    Schedule128(key);
    WordsOf(key, 1, 4, K1);
    WordsOf(key, 10, 40, K10);
    assert Unfold(0);
  }

  /** The second group of words of appendix A.2. */
  lemma Words192(key: seq<Col>)
    requires key == [Col(0x8E, 0x73, 0xB0, 0xF7), Col(0xDA, 0x0E, 0x64, 0x52), Col(0xC8, 0x10, 0xF3, 0x2B),
                     Col(0x80, 0x90, 0x79, 0xE5), Col(0x62, 0xF8, 0xEA, 0xD2), Col(0x52, 0x2C, 0x6B, 0x7B)]
    ensures KeyWord(Standard(), key, 6) == Col(0xFE, 0x0C, 0x91, 0xF7)
    ensures KeyWord(Standard(), key, 7) == Col(0x24, 0x02, 0xF5, 0xA5)
    ensures KeyWord(Standard(), key, 8) == Col(0xEC, 0x12, 0x06, 0x8E)
    ensures KeyWord(Standard(), key, 9) == Col(0x6C, 0x82, 0x7F, 0x6B)
    ensures KeyWord(Standard(), key, 10) == Col(0x0E, 0x7A, 0x95, 0xB9)
    ensures KeyWord(Standard(), key, 11) == Col(0x5C, 0x56, 0xFE, 0xC2)
  {
    Constants();
    FirstWord(key, 0); FirstWord(key, 1); FirstWord(key, 2);
    FirstWord(key, 3); FirstWord(key, 4); FirstWord(key, 5);
    NextWord(key, 0, 0, 0, 6, key[0], key[5], 0x01,
             Col(0xFE, 0x0C, 0x91, 0xF7));
    NextWord(key, 0, 1, 1, 7, key[1], Col(0xFE, 0x0C, 0x91, 0xF7), 0x01,
             Col(0x24, 0x02, 0xF5, 0xA5));
    NextWord(key, 0, 2, 2, 8, key[2], Col(0x24, 0x02, 0xF5, 0xA5), 0x01,
             Col(0xEC, 0x12, 0x06, 0x8E));
    NextWord(key, 0, 3, 3, 9, key[3], Col(0xEC, 0x12, 0x06, 0x8E), 0x01,
             Col(0x6C, 0x82, 0x7F, 0x6B));
    NextWord(key, 0, 4, 4, 10, key[4], Col(0x6C, 0x82, 0x7F, 0x6B), 0x01,
             Col(0x0E, 0x7A, 0x95, 0xB9));
    NextWord(key, 0, 5, 5, 11, key[5], Col(0x0E, 0x7A, 0x95, 0xB9), 0x01,
             Col(0x5C, 0x56, 0xFE, 0xC2));
    assert Unfold(0);
  }

  /** The second group of words of appendix A.3, with the extra substitution in its middle. */
  lemma Words256(key: seq<Col>)
    requires key == [Col(0x60, 0x3D, 0xEB, 0x10), Col(0x15, 0xCA, 0x71, 0xBE), Col(0x2B, 0x73, 0xAE, 0xF0),
                     Col(0x85, 0x7D, 0x77, 0x81), Col(0x1F, 0x35, 0x2C, 0x07), Col(0x3B, 0x61, 0x08, 0xD7),
                     Col(0x2D, 0x98, 0x10, 0xA3), Col(0x09, 0x14, 0xDF, 0xF4)]
    ensures KeyWord(Standard(), key, 8) == Col(0x9B, 0xA3, 0x54, 0x11)
    ensures KeyWord(Standard(), key, 9) == Col(0x8E, 0x69, 0x25, 0xAF)
    ensures KeyWord(Standard(), key, 10) == Col(0xA5, 0x1A, 0x8B, 0x5F)
    ensures KeyWord(Standard(), key, 11) == Col(0x20, 0x67, 0xFC, 0xDE)
    ensures KeyWord(Standard(), key, 12) == Col(0xA8, 0xB0, 0x9C, 0x1A)
    ensures KeyWord(Standard(), key, 13) == Col(0x93, 0xD1, 0x94, 0xCD)
    ensures KeyWord(Standard(), key, 14) == Col(0xBE, 0x49, 0x84, 0x6E)
    ensures KeyWord(Standard(), key, 15) == Col(0xB7, 0x5D, 0x5B, 0x9A)
  {
    Constants();
    FirstWord(key, 0); FirstWord(key, 1); FirstWord(key, 2); FirstWord(key, 3);
    FirstWord(key, 4); FirstWord(key, 5); FirstWord(key, 6); FirstWord(key, 7);
    NextWord(key, 0, 0, 0, 8, key[0], key[7], 0x01,
             Col(0x9B, 0xA3, 0x54, 0x11));
    NextWord(key, 0, 1, 1, 9, key[1], Col(0x9B, 0xA3, 0x54, 0x11), 0x01,
             Col(0x8E, 0x69, 0x25, 0xAF));
    NextWord(key, 0, 2, 2, 10, key[2], Col(0x8E, 0x69, 0x25, 0xAF), 0x01,
             Col(0xA5, 0x1A, 0x8B, 0x5F));
    NextWord(key, 0, 3, 3, 11, key[3], Col(0xA5, 0x1A, 0x8B, 0x5F), 0x01,
             Col(0x20, 0x67, 0xFC, 0xDE));
    NextWord(key, 0, 4, 4, 12, key[4], Col(0x20, 0x67, 0xFC, 0xDE), 0x01,
             Col(0xA8, 0xB0, 0x9C, 0x1A));
    NextWord(key, 0, 5, 5, 13, key[5], Col(0xA8, 0xB0, 0x9C, 0x1A), 0x01,
             Col(0x93, 0xD1, 0x94, 0xCD));
    NextWord(key, 0, 6, 6, 14, key[6], Col(0x93, 0xD1, 0x94, 0xCD), 0x01,
             Col(0xBE, 0x49, 0x84, 0x6E));
    NextWord(key, 0, 7, 7, 15, key[7], Col(0xBE, 0x49, 0x84, 0x6E), 0x01,
             Col(0xB7, 0x5D, 0x5B, 0x9A));
    assert Unfold(0);
  }

  // ---- The cipher ----------------------------------------------------------------------------------------

  /** MixColumns of a column, multiplied out. */
  lemma MixedCol(c: Col)
    ensures Standard().MixCol(c) == Col(Add(Add(Add(XTime(c.b0), Add(XTime(c.b1), c.b1)), c.b2), c.b3),
                                        Add(Add(Add(c.b0, XTime(c.b1)), Add(XTime(c.b2), c.b2)), c.b3),
                                        Add(Add(Add(c.b0, c.b1), XTime(c.b2)), Add(XTime(c.b3), c.b3)),
                                        Add(Add(Add(Add(XTime(c.b0), c.b0), c.b1), c.b2), XTime(c.b3)))
  {}

  lemma Round1()
    ensures SubShift(Standard(), S1) == M1 && AddRoundKey(MixColumns(Standard(), M1), K1) == S2
  {
    MixedCol(M1.c0); MixedCol(M1.c1); MixedCol(M1.c2); MixedCol(M1.c3);
  }

  lemma Round2()
    ensures SubShift(Standard(), S2) == M2 && AddRoundKey(MixColumns(Standard(), M2), K2) == S3
  {
    MixedCol(M2.c0); MixedCol(M2.c1); MixedCol(M2.c2); MixedCol(M2.c3);
  }

  lemma Round3()
    ensures SubShift(Standard(), S3) == M3 && AddRoundKey(MixColumns(Standard(), M3), K3) == S4
  {
    MixedCol(M3.c0); MixedCol(M3.c1); MixedCol(M3.c2); MixedCol(M3.c3);
  }

  lemma Round4()
    ensures SubShift(Standard(), S4) == M4 && AddRoundKey(MixColumns(Standard(), M4), K4) == S5
  {
    MixedCol(M4.c0); MixedCol(M4.c1); MixedCol(M4.c2); MixedCol(M4.c3);
  }

  lemma Round5()
    ensures SubShift(Standard(), S5) == M5 && AddRoundKey(MixColumns(Standard(), M5), K5) == S6
  {
    MixedCol(M5.c0); MixedCol(M5.c1); MixedCol(M5.c2); MixedCol(M5.c3);
  }

  lemma Round6()
    ensures SubShift(Standard(), S6) == M6 && AddRoundKey(MixColumns(Standard(), M6), K6) == S7
  {
    MixedCol(M6.c0); MixedCol(M6.c1); MixedCol(M6.c2); MixedCol(M6.c3);
  }

  lemma Round7()
    ensures SubShift(Standard(), S7) == M7 && AddRoundKey(MixColumns(Standard(), M7), K7) == S8
  {
    MixedCol(M7.c0); MixedCol(M7.c1); MixedCol(M7.c2); MixedCol(M7.c3);
  }

  lemma Round8()
    ensures SubShift(Standard(), S8) == M8 && AddRoundKey(MixColumns(Standard(), M8), K8) == S9
  {
    MixedCol(M8.c0); MixedCol(M8.c1); MixedCol(M8.c2); MixedCol(M8.c3);
  }

  lemma Round9()
    ensures SubShift(Standard(), S9) == M9 && AddRoundKey(MixColumns(Standard(), M9), K9) == S10
  {
    MixedCol(M9.c0); MixedCol(M9.c1); MixedCol(M9.c2); MixedCol(M9.c3);
  }

  lemma Round10()
    ensures SubShift(Standard(), S10) == M10 && AddRoundKey(M10, K10) == S11
  {}

  /** The state after r rounds from S1. */
  ghost predicate RoundsGive(k: seq<State>, r: nat, z: State)
    requires r < |k|
  {
    forall u {:trigger Unfold(u)} :: u == 0 ==> Rounds(Encrypting(Standard()), k, S1, r) == z
  }

  lemma Turn(k: seq<State>, r: nat, s: State, m: State, next: State)
    requires 1 <= r < |k| && RoundsGive(k, r - 1, s)
    requires SubShift(Standard(), s) == m && AddRoundKey(MixColumns(Standard(), m), k[r]) == next
    ensures RoundsGive(k, r, next)
  {
    assert Unfold(0);
  }

  /** The round keys are those of the schedule. */
  ghost predicate KeysAre(k: seq<State>) {
    && |k| == 11 && k[0] == K0 && k[1] == K1 && k[2] == K2 && k[3] == K3 && k[4] == K4 && k[5] == K5
    && k[6] == K6 && k[7] == K7 && k[8] == K8 && k[9] == K9 && k[10] == K10
  }

  lemma Through0(k: seq<State>, r: nat)
    requires KeysAre(k) && r == 0
    ensures RoundsGive(k, r, S1)
  {
    assert Rounds(Encrypting(Standard()), k, S1, r) == S1;
  }

  lemma Through1(k: seq<State>, r: nat)
    requires KeysAre(k) && r == 1
    ensures RoundsGive(k, r, S2)
  {
    Through0(k, r - 1);
    Round1();
    Turn(k, r, S1, M1, S2);
  }

  lemma Through2(k: seq<State>, r: nat)
    requires KeysAre(k) && r == 2
    ensures RoundsGive(k, r, S3)
  {
    Through1(k, r - 1);
    Round2();
    Turn(k, r, S2, M2, S3);
  }

  lemma Through3(k: seq<State>, r: nat)
    requires KeysAre(k) && r == 3
    ensures RoundsGive(k, r, S4)
  {
    Through2(k, r - 1);
    Round3();
    Turn(k, r, S3, M3, S4);
  }

  lemma Through4(k: seq<State>, r: nat)
    requires KeysAre(k) && r == 4
    ensures RoundsGive(k, r, S5)
  {
    Through3(k, r - 1);
    Round4();
    Turn(k, r, S4, M4, S5);
  }

  lemma Through5(k: seq<State>, r: nat)
    requires KeysAre(k) && r == 5
    ensures RoundsGive(k, r, S6)
  {
    Through4(k, r - 1);
    Round5();
    Turn(k, r, S5, M5, S6);
  }

  lemma Through6(k: seq<State>, r: nat)
    requires KeysAre(k) && r == 6
    ensures RoundsGive(k, r, S7)
  {
    Through5(k, r - 1);
    Round6();
    Turn(k, r, S6, M6, S7);
  }

  lemma Through7(k: seq<State>, r: nat)
    requires KeysAre(k) && r == 7
    ensures RoundsGive(k, r, S8)
  {
    Through6(k, r - 1);
    Round7();
    Turn(k, r, S7, M7, S8);
  }

  lemma Through8(k: seq<State>, r: nat)
    requires KeysAre(k) && r == 8
    ensures RoundsGive(k, r, S9)
  {
    Through7(k, r - 1);
    Round8();
    Turn(k, r, S8, M8, S9);
  }

  lemma Through9(k: seq<State>, r: nat)
    requires KeysAre(k) && r == 9
    ensures RoundsGive(k, r, S10)
  {
    Through8(k, r - 1);
    Round9();
    Turn(k, r, S9, M9, S10);
  }

  lemma RoundKeyAt(key: seq<Col>, r: nat, k: State, nr: nat)
    requires |key| >= 4 && RoundKeyIs(key, r, k) && r <= nr
    ensures RoundKeys(Standard(), key, nr)[r] == k
  {
    assert Unfold(0);
  }

  lemma RoundKeys128(key: seq<Col>, nr: nat)
    requires key == [K0.c0, K0.c1, K0.c2, K0.c3] && nr == 10
    ensures KeysAre(RoundKeys(Standard(), key, nr))
  {
    Schedule128(key);
    RoundKeyAt(key, 0, K0, nr); RoundKeyAt(key, 1, K1, nr); RoundKeyAt(key, 2, K2, nr); RoundKeyAt(key, 3, K3, nr);
    RoundKeyAt(key, 4, K4, nr); RoundKeyAt(key, 5, K5, nr); RoundKeyAt(key, 6, K6, nr); RoundKeyAt(key, 7, K7, nr);
    RoundKeyAt(key, 8, K8, nr); RoundKeyAt(key, 9, K9, nr); RoundKeyAt(key, 10, K10, nr);
  }

  /** Ten, twelve or fourteen rounds, by the key; the round keys are the words of the expansion, four by four. */
  lemma RoundsByKey(f: Field, key: seq<Col>, s: State) returns (k: seq<State>)
    requires |key| == 4 || |key| == 6 || |key| == 8
    ensures |k| == if |key| == 4 then 11 else if |key| == 6 then 13 else 15
    ensures forall r :: 0 <= r < |k| ==>
              k[r] == State(KeyWord(f, key, 4 * r), KeyWord(f, key, 4 * r + 1), KeyWord(f, key, 4 * r + 2),
                            KeyWord(f, key, 4 * r + 3))
    ensures EncryptState(f, key, s) == Cipher(f, k, s)
  {
    k := RoundKeys(f, key, |key| + 6);
  }

  lemma CipherOf(k: seq<State>, s: State, nine: nat)
    requires KeysAre(k) && AddRoundKey(s, K0) == S1 && nine == 9 && RoundsGive(k, nine, S10)
    ensures Cipher(Standard(), k, s) == S11
  {
    Round10();
    assert Unfold(0);
  }

  /** Appendix B: the key, the block and its encryption, as bytes. */
  lemma AppendixB(key: seq<bv8>, block: seq<bv8>, four: nat)
    requires key == [0x2B, 0x7E, 0x15, 0x16, 0x28, 0xAE, 0xD2, 0xA6, 0xAB, 0xF7, 0x15, 0x88, 0x09, 0xCF, 0x4F, 0x3C]
    requires block == [0x32, 0x43, 0xF6, 0xA8, 0x88, 0x5A, 0x30, 0x8D, 0x31, 0x31, 0x98, 0xA2, 0xE0, 0x37, 0x07, 0x34]
    requires four == 4
    ensures EncryptBlock(Standard(), KeyCols(key, four), block)
         == [0x39, 0x25, 0x84, 0x1D, 0x02, 0xDC, 0x09, 0xFB, 0xDC, 0x11, 0x85, 0x97, 0x19, 0x6A, 0x0B, 0x32]
  {
    var cols := KeyCols(key, four);
    BytesB(key, block, four);
    RoundKeys128(cols, |cols| + 6);
    Through9(RoundKeys(Standard(), cols, |cols| + 6), 9);
    CipherOf(RoundKeys(Standard(), cols, |cols| + 6), Load(block), 9);
    Stored(cols, block, RoundKeys(Standard(), cols, |cols| + 6), S11);
    StoreB();
  }

  lemma Stored(cols: seq<Col>, block: seq<bv8>, k: seq<State>, s: State)
    requires |cols| >= 4 && |block| == 16 && k == RoundKeys(Standard(), cols, |cols| + 6)
    requires Cipher(Standard(), k, Load(block)) == s
    ensures EncryptBlock(Standard(), cols, block) == Store(s)
  {}

  lemma StoreB()
    ensures Store(S11)
         == [0x39, 0x25, 0x84, 0x1D, 0x02, 0xDC, 0x09, 0xFB, 0xDC, 0x11, 0x85, 0x97, 0x19, 0x6A, 0x0B, 0x32]
  {}

  lemma BytesB(key: seq<bv8>, block: seq<bv8>, four: nat)
    requires key == [0x2B, 0x7E, 0x15, 0x16, 0x28, 0xAE, 0xD2, 0xA6, 0xAB, 0xF7, 0x15, 0x88, 0x09, 0xCF, 0x4F, 0x3C]
    requires block == [0x32, 0x43, 0xF6, 0xA8, 0x88, 0x5A, 0x30, 0x8D, 0x31, 0x31, 0x98, 0xA2, 0xE0, 0x37, 0x07, 0x34]
    requires four == 4
    ensures KeyCols(key, four) == [K0.c0, K0.c1, K0.c2, K0.c3] && AddRoundKey(Load(block), K0) == S1
  {}
}
