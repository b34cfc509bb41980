/** Columns as 32-bit words, the lookup tables of the implementation and its key schedule (FIPS 197, section 5.2). */
module AesTables {
  import opened AesField
  import opened Words
  import opened AesCipher

  // ---- Words ---------------------------------------------------------------------------------------

  /** GET_UINT32: big-endian. */
  function Word(c: Col): bv32 {
    ((c.b0 as bv32) << 24) | ((c.b1 as bv32) << 16) | ((c.b2 as bv32) << 8) | (c.b3 as bv32)
  }

  /** The casts of a shifted word to a byte. */
  function Byte0(w: bv32): bv8 { ((w >> 24) & 0xFF) as bv8 }
  function Byte1(w: bv32): bv8 { ((w >> 16) & 0xFF) as bv8 }
  function Byte2(w: bv32): bv8 { ((w >> 8) & 0xFF) as bv8 }
  function Byte3(w: bv32): bv8 { (w & 0xFF) as bv8 }

  function XorWord(a: bv32, b: bv32): bv32 { a ^ b }

  lemma BytesOfWord(c: Col)
    ensures Byte0(Word(c)) == c.b0 && Byte1(Word(c)) == c.b1 && Byte2(Word(c)) == c.b2 && Byte3(Word(c)) == c.b3
  {}

  lemma WordOfXor(c: Col, k: Col)
    ensures XorWord(Word(c), Word(k)) == Word(Xor(c, k))
  {}

  /** rk ^ (b0 << 24) ^ (b1 << 16) ^ (b2 << 8) ^ b3. */
  function XorBytes(rk: bv32, b0: bv32, b1: bv32, b2: bv32, b3: bv32): bv32 {
    XorWord(XorWord(XorWord(XorWord(rk, b0 << 24), b1 << 16), b2 << 8), b3)
  }

  lemma XorWordAssoc(a: bv32, b: bv32, c: bv32)
    ensures XorWord(XorWord(a, b), c) == XorWord(a, XorWord(b, c))
  {}

  lemma XorBytesIs(k: Col, c: Col)
    ensures XorBytes(Word(k), c.b0 as bv32, c.b1 as bv32, c.b2 as bv32, c.b3 as bv32) == Word(Xor(k, c))
  {
    WordOfXor(k, c);
    WordFromParts(c);
    Gathered(Word(k), (c.b0 as bv32) << 24, (c.b1 as bv32) << 16, (c.b2 as bv32) << 8, c.b3 as bv32);
  }

  lemma Gathered(rk: bv32, p: bv32, q: bv32, r: bv32, s: bv32)
    ensures XorWord(XorWord(XorWord(XorWord(rk, p), q), r), s) == XorWord(rk, XorWord(XorWord(XorWord(p, q), r), s))
  {
    XorWordAssoc(rk, p, q);
    XorWordAssoc(rk, XorWord(p, q), r);
    XorWordAssoc(rk, XorWord(XorWord(p, q), r), s);
  }

  /** Parts that do not overlap can be added for or-ed. */
  lemma WordFromParts(c: Col)
    ensures XorWord(XorWord(XorWord((c.b0 as bv32) << 24, (c.b1 as bv32) << 16), (c.b2 as bv32) << 8), c.b3 as bv32)
          == Word(c)
  {}

  // ---- Tables --------------------------------------------------------------------------------------

  /** The tables, indexed by bytes. */
  datatype Tables = Tables(FSb: bv8 -> bv32, FT0: bv8 -> bv32, FT1: bv8 -> bv32, FT2: bv8 -> bv32, FT3: bv8 -> bv32,
                           RSb: bv8 -> bv32, RT0: bv8 -> bv32, RT1: bv8 -> bv32, RT2: bv8 -> bv32, RT3: bv8 -> bv32,
                           RCON: seq<bv32>)

  /** The round constants, section 5.2: powers of x in the top byte. */
  function RconByte(f: Field, i: nat): bv8 { if i <= 1 then 1 else f.xtime(RconByte(f, i - 1)) }

  function Rcon(f: Field, i: nat): Col { Col(RconByte(f, i), 0, 0, 0) }

  /** What aes_gen_tables leaves in the tables: entry b is the S-box value, times a column of MixColumns
      or its inverse in the round tables. */
  ghost predicate Generated(t: Tables, f: Field) {
    && |t.RCON| == 10
    && (forall b {:trigger Entry(t, f, b)} :: Entry(t, f, b))
    && (forall i {:trigger Constant(t, f, i)} :: 0 <= i < 10 ==> Constant(t, f, i))
  }

  predicate Entry(t: Tables, f: Field, b: bv8) {
    && t.FSb(b) == f.sub(b) as bv32
    && t.FT0(b) == Word(f.Mix0(f.sub(b))) && t.FT1(b) == Word(f.Mix1(f.sub(b)))
    && t.FT2(b) == Word(f.Mix2(f.sub(b))) && t.FT3(b) == Word(f.Mix3(f.sub(b)))
    && t.RSb(b) == f.invSub(b) as bv32
    && t.RT0(b) == Word(f.Inv0(f.invSub(b))) && t.RT1(b) == Word(f.Inv1(f.invSub(b)))
    && t.RT2(b) == Word(f.Inv2(f.invSub(b))) && t.RT3(b) == Word(f.Inv3(f.invSub(b)))
  }

  predicate Constant(t: Tables, f: Field, i: nat)
    requires i < |t.RCON|
  {
    t.RCON[i] == Word(Rcon(f, i + 1))
  }

  /** One output word of a forward round. */
  function ForwardWord(t: Tables, rk: bv32, y0: bv32, y1: bv32, y2: bv32, y3: bv32): bv32 {
    XorWord(XorWord(XorWord(XorWord(rk, t.FT0(Byte0(y0))), t.FT1(Byte1(y1))), t.FT2(Byte2(y2))), t.FT3(Byte3(y3)))
  }

  function ReverseWord(t: Tables, rk: bv32, y0: bv32, y1: bv32, y2: bv32, y3: bv32): bv32 {
    XorWord(XorWord(XorWord(XorWord(rk, t.RT0(Byte0(y0))), t.RT1(Byte1(y1))), t.RT2(Byte2(y2))), t.RT3(Byte3(y3)))
  }

  /** Five words in a row are the columns' sum. */
  lemma FiveWords(k: Col, a: Col, b: Col, c: Col, d: Col)
    ensures XorWord(XorWord(XorWord(XorWord(Word(k), Word(a)), Word(b)), Word(c)), Word(d))
          == Word(Xor(Xor4(a, b, c, d), k))
  {
    WordOfXor(k, a);
    WordOfXor(Xor(k, a), b);
    WordOfXor(Xor(Xor(k, a), b), c);
    WordOfXor(Xor(Xor(Xor(k, a), b), c), d);
    KeyLast(k, a, b, c, d);
  }

  lemma XorComm(a: Col, b: Col)
    ensures Xor(a, b) == Xor(b, a)
  {
    AddComm(a.b0, b.b0);
    AddComm(a.b1, b.b1);
    AddComm(a.b2, b.b2);
    AddComm(a.b3, b.b3);
  }

  lemma XorAssoc(a: Col, b: Col, c: Col)
    ensures Xor(Xor(a, b), c) == Xor(a, Xor(b, c))
  {
    AddAssoc(a.b0, b.b0, c.b0);
    AddAssoc(a.b1, b.b1, c.b1);
    AddAssoc(a.b2, b.b2, c.b2);
    AddAssoc(a.b3, b.b3, c.b3);
  }

  lemma KeyLast(k: Col, a: Col, b: Col, c: Col, d: Col)
    ensures Xor(Xor(Xor(Xor(k, a), b), c), d) == Xor(Xor4(a, b, c, d), k)
  {
    XorAssoc(k, a, b);
    XorAssoc(k, Xor(a, b), c);
    XorAssoc(k, Xor(Xor(a, b), c), d);
    XorComm(k, Xor4(a, b, c, d));
  }

  /** A forward round's table look-ups are MixColumns of the S-box values, plus the round key. */
  lemma ForwardWordIs(t: Tables, f: Field, k: Col, c0: Col, c1: Col, c2: Col, c3: Col)
    requires Generated(t, f)
    ensures ForwardWord(t, Word(k), Word(c0), Word(c1), Word(c2), Word(c3))
         == Word(Xor(f.MixCol(MapCol(f.sub, Col(c0.b0, c1.b1, c2.b2, c3.b3))), k))
  {
    assert Entry(t, f, c0.b0) && Entry(t, f, c1.b1) && Entry(t, f, c2.b2) && Entry(t, f, c3.b3);
    BytesOfWord(c0);
    BytesOfWord(c1);
    BytesOfWord(c2);
    BytesOfWord(c3);
    FiveWords(k, f.Mix0(f.sub(c0.b0)), f.Mix1(f.sub(c1.b1)), f.Mix2(f.sub(c2.b2)), f.Mix3(f.sub(c3.b3)));
  }

  lemma ReverseWordIs(t: Tables, f: Field, k: Col, c0: Col, c1: Col, c2: Col, c3: Col)
    requires Generated(t, f)
    ensures ReverseWord(t, Word(k), Word(c0), Word(c1), Word(c2), Word(c3))
         == Word(Xor(f.InvMixCol(MapCol(f.invSub, Col(c0.b0, c1.b1, c2.b2, c3.b3))), k))
  {
    assert Entry(t, f, c0.b0) && Entry(t, f, c1.b1) && Entry(t, f, c2.b2) && Entry(t, f, c3.b3);
    BytesOfWord(c0);
    BytesOfWord(c1);
    BytesOfWord(c2);
    BytesOfWord(c3);
    FiveWords(k, f.Inv0(f.invSub(c0.b0)), f.Inv1(f.invSub(c1.b1)), f.Inv2(f.invSub(c2.b2)), f.Inv3(f.invSub(c3.b3)));
  }

  /** The last round looks S-box values up without mixing; s is FSb or RSb. */
  function LastWord(s: bv8 -> bv32, rk: bv32, y0: bv32, y1: bv32, y2: bv32, y3: bv32): bv32 {
    XorBytes(rk, s(Byte0(y0)), s(Byte1(y1)), s(Byte2(y2)), s(Byte3(y3)))
  }

  lemma LastWordIs(s: bv8 -> bv32, g: bv8 -> bv8, k: Col, c0: Col, c1: Col, c2: Col, c3: Col)
    requires forall b {:trigger s(b)} :: s(b) == g(b) as bv32
    ensures LastWord(s, Word(k), Word(c0), Word(c1), Word(c2), Word(c3))
         == Word(Xor(MapCol(g, Col(c0.b0, c1.b1, c2.b2, c3.b3)), k))
  {
    BytesOfWord(c0);
    BytesOfWord(c1);
    BytesOfWord(c2);
    BytesOfWord(c3);
    var c := MapCol(g, Col(c0.b0, c1.b1, c2.b2, c3.b3));
    XorBytesIs(k, c);
    XorComm(k, c);
  }

  // ---- Key expansion -------------------------------------------------------------------------------

  function SubWord(f: Field, c: Col): Col { MapCol(f.sub, c) }

  function RotWord(c: Col): Col { Col(c.b1, c.b2, c.b3, c.b0) }

  /** Word i of the expanded key; key is the cipher key, in 4, 6 or 8 words. */
  function KeyWord(f: Field, key: seq<Col>, i: nat): Col
    requires |key| >= 4
  {
    var nk := |key|;
    if i < nk then key[i]
    else if i % nk == 0 then
          Xor(KeyWord(f, key, i - nk), Xor(SubWord(f, RotWord(KeyWord(f, key, i - 1))), Rcon(f, i / nk)))
    else if nk > 6 && i % nk == 4 then Xor(KeyWord(f, key, i - nk), SubWord(f, KeyWord(f, key, i - 1)))
    else Xor(KeyWord(f, key, i - nk), KeyWord(f, key, i - 1))
  }

  /** Word j of group i + 1, m being the index of the word a group before. */
  lemma KeyStep(f: Field, key: seq<Col>, i: nat, j: nat, m: nat)
    requires 4 <= |key| && j < |key| && m == |key| * i + j
    ensures var nk := |key|;
            KeyWord(f, key, nk + m) ==
              if j == 0 then Xor(KeyWord(f, key, m),
                    Xor(SubWord(f, RotWord(KeyWord(f, key, nk + m - 1))), Rcon(f, i + 1)))
              else if nk > 6 && j == 4 then Xor(KeyWord(f, key, m), SubWord(f, KeyWord(f, key, nk + m - 1)))
              else Xor(KeyWord(f, key, m), KeyWord(f, key, nk + m - 1))
  {
    Division(|key|, i + 1, j);
  }

  lemma Division(n: nat, q: nat, r: nat)
    requires r < n && q >= 1
    ensures (n * q + r) / n == q && (n * q + r) % n == r && n * q == n + n * (q - 1)
  {
    DivUnique(n * q + r, n, q, r);
  }

  lemma SEntry(t: Tables, f: Field, b: bv8)
    requires Generated(t, f)
    ensures t.FSb(b) == f.sub(b) as bv32 && t.RSb(b) == f.invSub(b) as bv32
  {
    assert Entry(t, f, b);
  }

  /** The code's order of the same sum. */
  function CoreWord(t: Tables, rk: bv32, rcon: bv32, last: bv32): bv32 {
    XorBytes(XorWord(rk, rcon), t.FSb(Byte1(last)), t.FSb(Byte2(last)), t.FSb(Byte3(last)), t.FSb(Byte0(last)))
  }

  lemma CoreWordIs(t: Tables, f: Field, k: Col, rcon: Col, last: Col)
    requires Generated(t, f)
    ensures CoreWord(t, Word(k), Word(rcon), Word(last)) == Word(Xor(k, Xor(SubWord(f, RotWord(last)), rcon)))
  {
    SEntry(t, f, last.b0);
    SEntry(t, f, last.b1);
    SEntry(t, f, last.b2);
    SEntry(t, f, last.b3);
    BytesOfWord(last);
    WordOfXor(k, rcon);
    var c := SubWord(f, RotWord(last));
    XorBytesIs(Xor(k, rcon), c);
    XorAssoc(k, rcon, c);
    XorComm(rcon, c);
  }

  /** The extra substitution in the middle of a 256-bit group. */
  function MiddleWord(t: Tables, rk: bv32, last: bv32): bv32 {
    XorBytes(rk, t.FSb(Byte0(last)), t.FSb(Byte1(last)), t.FSb(Byte2(last)), t.FSb(Byte3(last)))
  }

  lemma MiddleWordIs(t: Tables, f: Field, k: Col, last: Col)
    requires Generated(t, f)
    ensures MiddleWord(t, Word(k), Word(last)) == Word(Xor(k, SubWord(f, last)))
  {
    SEntry(t, f, last.b0);
    SEntry(t, f, last.b1);
    SEntry(t, f, last.b2);
    SEntry(t, f, last.b3);
    BytesOfWord(last);
    XorBytesIs(k, SubWord(f, last));
  }

  /** The round keys: four words each. */
  function RoundKeys(f: Field, key: seq<Col>, nr: nat): (k: seq<State>)
    requires |key| >= 4
    ensures |k| == nr + 1
    ensures forall r :: 0 <= r <= nr ==> k[r] == RoundKey(f, key, r)
  {
    seq(nr + 1, r requires 0 <= r <= nr => RoundKey(f, key, r))
  }

  function RoundKey(f: Field, key: seq<Col>, r: nat): State
    requires |key| >= 4
  {
    State(KeyWord(f, key, 4 * r), KeyWord(f, key, 4 * r + 1), KeyWord(f, key, 4 * r + 2), KeyWord(f, key, 4 * r + 3))
  }

  /** The KT tables undo the S-box inside RT: they are InvMixColumns alone. */
  function KTWord(t: Tables, w: bv32): bv32 {
    XorWord(XorWord(XorWord(t.RT0(Index(t.FSb(Byte0(w)))), t.RT1(Index(t.FSb(Byte1(w))))),
          t.RT2(Index(t.FSb(Byte2(w))))),
            t.RT3(Index(t.FSb(Byte3(w)))))
  }

  /** A table entry used as an index. */
  function Index(x: bv32): bv8 { (x & 0xFF) as bv8 }

  lemma IndexOfByte(b: bv8)
    ensures Index(b as bv32) == b
  {}

  lemma KTWordIs(t: Tables, f: Field, c: Col)
    requires Generated(t, f) && f.Valid()
    ensures KTWord(t, Word(c)) == Word(f.InvMixCol(c))
  {
    BytesOfWord(c);
    KTEntry(t, f, c.b0);
    KTEntry(t, f, c.b1);
    KTEntry(t, f, c.b2);
    KTEntry(t, f, c.b3);
    var a, b, d, e := f.Inv0(c.b0), f.Inv1(c.b1), f.Inv2(c.b2), f.Inv3(c.b3);
    WordOfXor(a, b);
    WordOfXor(Xor(a, b), d);
    WordOfXor(Xor(Xor(a, b), d), e);
  }

  lemma KTEntry(t: Tables, f: Field, b: bv8)
    requires Generated(t, f) && f.Valid()
    ensures t.RT0(Index(t.FSb(b))) == Word(f.Inv0(b)) && t.RT1(Index(t.FSb(b))) == Word(f.Inv1(b))
    ensures t.RT2(Index(t.FSb(b))) == Word(f.Inv2(b)) && t.RT3(Index(t.FSb(b))) == Word(f.Inv3(b))
  {
    IndexOfByte(f.sub(b));
    assert Entry(t, f, b) && Entry(t, f, f.sub(b)) && f.Undone(b);
  }
}
