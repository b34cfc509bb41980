/** Bytes as elements of GF(2^8), and the columns of the AES state. FIPS 197, sections 3.4, 4 and 5. */
module AesField {
  /** Addition, section 4.1. */
  function Add(a: bv8, b: bv8): bv8 { a ^ b }

  lemma AddLaws(a: bv8, b: bv8)
    ensures Add(Add(a, b), b) == a && Add(a, a) == 0 && Add(a, 0) == a && Add(0, a) == a
  {}

  lemma AddComm(a: bv8, b: bv8)
    ensures Add(a, b) == Add(b, a)
  {}

  lemma AddAssoc(a: bv8, b: bv8, c: bv8)
    ensures Add(Add(a, b), c) == Add(a, Add(b, c))
  {}

  lemma AddMedial(a: bv8, b: bv8, c: bv8, d: bv8)
    ensures Add(Add(a, b), Add(c, d)) == Add(Add(a, c), Add(b, d))
  {
    AddAssoc(a, b, Add(c, d));
    AddAssoc(b, c, d);
    AddComm(b, c);
    AddAssoc(c, b, d);
    AddAssoc(a, c, Add(b, d));
  }

  /** One column of the state, top byte first. */
  datatype Col = Col(b0: bv8, b1: bv8, b2: bv8, b3: bv8)

  function Xor(c: Col, k: Col): Col { Col(Add(c.b0, k.b0), Add(c.b1, k.b1), Add(c.b2, k.b2), Add(c.b3, k.b3)) }

  function Xor4(a: Col, b: Col, c: Col, d: Col): Col { Xor(Xor(Xor(a, b), c), d) }

  lemma XorBack(a: Col, b: Col)
    ensures Xor(Xor(a, b), b) == a
  {
    AddLaws(a.b0, b.b0);
    AddLaws(a.b1, b.b1);
    AddLaws(a.b2, b.b2);
    AddLaws(a.b3, b.b3);
  }

  lemma XorMedial(a: Col, b: Col, c: Col, d: Col)
    ensures Xor(Xor(a, b), Xor(c, d)) == Xor(Xor(a, c), Xor(b, d))
  {
    AddMedial(a.b0, b.b0, c.b0, d.b0);
    AddMedial(a.b1, b.b1, c.b1, d.b1);
    AddMedial(a.b2, b.b2, c.b2, d.b2);
    AddMedial(a.b3, b.b3, c.b3, d.b3);
  }

  lemma Xor4Xor(a: Col, b: Col, c: Col, d: Col, e: Col, f: Col, g: Col, h: Col)
    ensures Xor4(Xor(a, e), Xor(b, f), Xor(c, g), Xor(d, h)) == Xor(Xor4(a, b, c, d), Xor4(e, f, g, h))
  {
    XorMedial(a, e, b, f);
    XorMedial(Xor(a, b), Xor(e, f), c, g);
    XorMedial(Xor(Xor(a, b), c), Xor(Xor(e, f), g), d, h);
  }

  function Down(c: Col): Col { Col(c.b3, c.b0, c.b1, c.b2) }

  lemma DownXor(c: Col, k: Col)
    ensures Down(Xor(c, k)) == Xor(Down(c), Down(k))
  {}

  /** The multiples 14, 9, 13 and 11 of a byte, given its multiples 1, 2, 4 and 8. */
  function Multiples(b: bv8, d: bv8, e: bv8, f: bv8): Col {
    Col(Add(Add(f, e), d), Add(f, b), Add(Add(f, e), b), Add(Add(f, d), b))
  }

  lemma MultiplesXor(b: bv8, d: bv8, e: bv8, f: bv8, b': bv8, d': bv8, e': bv8, f': bv8)
    ensures Multiples(Add(b, b'), Add(d, d'), Add(e, e'), Add(f, f'))
         == Xor(Multiples(b, d, e, f), Multiples(b', d', e', f'))
  {
    AddMedial(f, f', e, e');
    AddMedial(f, f', d, d');
    AddMedial(f, f', b, b');
    AddMedial(Add(f, e), Add(f', e'), d, d');
    AddMedial(Add(f, e), Add(f', e'), b, b');
    AddMedial(Add(f, d), Add(f', d'), b, b');
  }

  /** What AES is built from: multiplication by x, the S-box and its inverse. */
  datatype Field = Field(xtime: bv8 -> bv8, sub: bv8 -> bv8, invSub: bv8 -> bv8) {

    /** The two facts that decryption rests on. */
    ghost predicate Valid() {
      && (forall a, b {:trigger Additive(a, b)} :: Additive(a, b))
      && (forall b {:trigger Undone(b)} :: Undone(b))
    }

    predicate Additive(a: bv8, b: bv8) { xtime(Add(a, b)) == Add(xtime(a), xtime(b)) }

    predicate Undone(b: bv8) { invSub(sub(b)) == b }

    /** A byte in row i multiplied into a column of MixColumns, section 5.1.3. */
    function Mix0(b: bv8): Col { Col(xtime(b), b, b, Add(xtime(b), b)) }
    function Mix1(b: bv8): Col { Down(Mix0(b)) }
    function Mix2(b: bv8): Col { Down(Mix1(b)) }
    function Mix3(b: bv8): Col { Down(Mix2(b)) }

    /** A byte in row i multiplied into a column of InvMixColumns, section 5.3.3. */
    function Inv0(b: bv8): Col { Multiples(b, xtime(b), xtime(xtime(b)), xtime(xtime(xtime(b)))) }
    function Inv1(b: bv8): Col { Down(Inv0(b)) }
    function Inv2(b: bv8): Col { Down(Inv1(b)) }
    function Inv3(b: bv8): Col { Down(Inv2(b)) }

    function MixCol(c: Col): Col { Xor4(Mix0(c.b0), Mix1(c.b1), Mix2(c.b2), Mix3(c.b3)) }

    function InvMixCol(c: Col): Col { Xor4(Inv0(c.b0), Inv1(c.b1), Inv2(c.b2), Inv3(c.b3)) }

    // ---- InvMixColumns is additive ------------------------------------------------------------

    lemma InvXor(a: bv8, b: bv8)
      requires Valid()
      ensures Inv0(Add(a, b)) == Xor(Inv0(a), Inv0(b)) && Inv1(Add(a, b)) == Xor(Inv1(a), Inv1(b))
      ensures Inv2(Add(a, b)) == Xor(Inv2(a), Inv2(b)) && Inv3(Add(a, b)) == Xor(Inv3(a), Inv3(b))
    {
      Inv0Xor(a, b);
      DownXor(Inv0(a), Inv0(b));
      DownXor(Inv1(a), Inv1(b));
      DownXor(Inv2(a), Inv2(b));
    }

    lemma Inv0Xor(a: bv8, b: bv8)
      requires Valid()
      ensures Inv0(Add(a, b)) == Xor(Inv0(a), Inv0(b))
    {
      assert Additive(a, b);
      assert Additive(xtime(a), xtime(b));
      assert Additive(xtime(xtime(a)), xtime(xtime(b)));
      MultiplesXor(a, xtime(a), xtime(xtime(a)), xtime(xtime(xtime(a))),
                   b, xtime(b), xtime(xtime(b)), xtime(xtime(xtime(b))));
    }

    lemma InvMixColXor(c: Col, k: Col)
      requires Valid()
      ensures InvMixCol(Xor(c, k)) == Xor(InvMixCol(c), InvMixCol(k))
    {
      InvXor(c.b0, k.b0);
      InvXor(c.b1, k.b1);
      InvXor(c.b2, k.b2);
      InvXor(c.b3, k.b3);
      Xor4Xor(Inv0(c.b0), Inv1(c.b1), Inv2(c.b2), Inv3(c.b3), Inv0(k.b0), Inv1(k.b1), Inv2(k.b2), Inv3(k.b3));
    }

    // ---- InvMixColumns undoes MixColumns ------------------------------------------------------

    /** The part of a sum that coefficient k of the mask m selects. */
    function Term(m: bv8, k: bv8, p: bv8): bv8 { if m & k != 0 then p else 0 }

    /** The multiple of b by the polynomial of degree at most 4 whose coefficients are the bits of m. */
    function Multiple(m: bv8, b: bv8): bv8 {
      var d := xtime(b);
      var e := xtime(d);
      var f := xtime(e);
      Sum5(Term(m, 1, b), Term(m, 2, d), Term(m, 4, e), Term(m, 8, f), Term(m, 16, xtime(f)))
    }

    function Sum5(a: bv8, b: bv8, c: bv8, d: bv8, e: bv8): bv8 { Add(Add(Add(Add(a, b), c), d), e) }

    lemma Sum5Add(a: bv8, b: bv8, c: bv8, d: bv8, e: bv8, a': bv8, b': bv8, c': bv8, d': bv8, e': bv8)
      ensures Sum5(Add(a, a'), Add(b, b'), Add(c, c'), Add(d, d'), Add(e, e'))
           == Add(Sum5(a, b, c, d, e), Sum5(a', b', c', d', e'))
    {
      AddMedial(a, a', b, b');
      AddMedial(Add(a, b), Add(a', b'), c, c');
      AddMedial(Add(Add(a, b), c), Add(Add(a', b'), c'), d, d');
      AddMedial(Add(Add(Add(a, b), c), d), Add(Add(Add(a', b'), c'), d'), e, e');
    }

    lemma TermAdd(m: bv8, n: bv8, k: bv8, p: bv8)
      requires k == 1 || k == 2 || k == 4 || k == 8 || k == 16
      ensures Term(m ^ n, k, p) == Add(Term(m, k, p), Term(n, k, p))
    {
      assert (m ^ n) & k == (m & k) ^ (n & k);
    }

    /** Coefficients add. */
    lemma MultipleAdd(m: bv8, n: bv8, b: bv8)
      ensures Multiple(m ^ n, b) == Add(Multiple(m, b), Multiple(n, b))
    {
      var d := xtime(b);
      var e := xtime(d);
      var f := xtime(e);
      TermAdd(m, n, 1, b);
      TermAdd(m, n, 2, d);
      TermAdd(m, n, 4, e);
      TermAdd(m, n, 8, f);
      TermAdd(m, n, 16, xtime(f));
      Sum5Add(Term(m, 1, b), Term(m, 2, d), Term(m, 4, e), Term(m, 8, f), Term(m, 16, xtime(f)),
              Term(n, 1, b), Term(n, 2, d), Term(n, 4, e), Term(n, 8, f), Term(n, 16, xtime(f)));
    }

    lemma TermDouble(m: bv8, k: bv8, p: bv8)
      requires Valid() && m < 16 && (k == 1 || k == 2 || k == 4 || k == 8)
      ensures xtime(Term(m, k, p)) == Term(m << 1, k << 1, xtime(p))
    {
      assert Additive(0, 0);
      AddLaws(xtime(0), 0);
      assert m & k != 0 <==> (m << 1) & (k << 1) != 0;
    }

    /** Doubling shifts the coefficients. */
    lemma MultipleDouble(m: bv8, b: bv8)
      requires Valid() && m < 16
      ensures xtime(Multiple(m, b)) == Multiple(m << 1, b)
    {
      var d := xtime(b);
      var e := xtime(d);
      var f := xtime(e);
      var p, q, r, s := Term(m, 1, b), Term(m, 2, d), Term(m, 4, e), Term(m, 8, f);
      assert Term(m, 16, xtime(f)) == 0 && Term(m << 1, 1, b) == 0;
      TermDouble(m, 1, b);
      TermDouble(m, 2, d);
      TermDouble(m, 4, e);
      TermDouble(m, 8, f);
      Sum5Double(p, q, r, s);
    }

    lemma Sum5Double(p: bv8, q: bv8, r: bv8, s: bv8)
      requires Valid()
      ensures xtime(Sum5(p, q, r, s, 0)) == Sum5(0, xtime(p), xtime(q), xtime(r), xtime(s))
    {
      AddLaws(Add(Add(Add(p, q), r), s), 0);
      AddLaws(xtime(p), 0);
      assert Additive(p, q) && Additive(Add(p, q), r) && Additive(Add(Add(p, q), r), s);
    }

    /** v(m) behaves as the multiple of some byte by m. */
    ghost predicate Coefficients(v: bv8 -> bv8) { Sums(v) && Doubles(v) }

    ghost predicate Sums(v: bv8 -> bv8) { forall m, n {:trigger Add(v(m), v(n))} :: Add(v(m), v(n)) == v(m ^ n) }

    ghost predicate Doubles(v: bv8 -> bv8) { forall m {:trigger xtime(v(m))} :: m < 16 ==> xtime(v(m)) == v(m << 1) }

    /** The columns of InvMixColumns times the columns of MixColumns, on coefficients. */
    lemma Cancel(v: bv8 -> bv8)
      requires Coefficients(v)
      ensures InvMixCol(Col(v(2), v(1), v(1), v(3))) == Col(v(1), v(0), v(0), v(0))
    {}

    lemma Cancel1(v: bv8 -> bv8)
      requires Coefficients(v)
      ensures InvMixCol(Col(v(3), v(2), v(1), v(1))) == Col(v(0), v(1), v(0), v(0))
    {}

    lemma Cancel2(v: bv8 -> bv8)
      requires Coefficients(v)
      ensures InvMixCol(Col(v(1), v(3), v(2), v(1))) == Col(v(0), v(0), v(1), v(0))
    {}

    lemma Cancel3(v: bv8 -> bv8)
      requires Coefficients(v)
      ensures InvMixCol(Col(v(1), v(1), v(3), v(2))) == Col(v(0), v(0), v(0), v(1))
    {}

    /** The small multiples of a byte. */
    lemma SmallMultiples(b: bv8)
      ensures Multiple(0, b) == 0 && Multiple(1, b) == b && Multiple(2, b) == xtime(b)
      ensures Multiple(3, b) == Add(xtime(b), b)
    {
      var d := xtime(b);
      AddLaws(0, 0);
      AddLaws(b, 0);
      AddLaws(d, 0);
      AddLaws(Add(b, d), 0);
      AddComm(b, d);
    }

    lemma MixedByte(b: bv8)
      requires Valid()
      ensures InvMixCol(Mix0(b)) == Col(b, 0, 0, 0) && InvMixCol(Mix1(b)) == Col(0, b, 0, 0)
      ensures InvMixCol(Mix2(b)) == Col(0, 0, b, 0) && InvMixCol(Mix3(b)) == Col(0, 0, 0, b)
    {
      var v := m => Multiple(m, b);
      MultipleSums(v, b);
      MultipleDoubles(v, b);
      SmallMultiples(b);
      Cancel(v);
      Cancel1(v);
      Cancel2(v);
      Cancel3(v);
    }

    lemma MultipleSums(v: bv8 -> bv8, b: bv8)
      requires forall m :: v(m) == Multiple(m, b)
      ensures Sums(v)
    {
      forall m, n ensures Add(v(m), v(n)) == v(m ^ n) { MultipleAdd(m, n, b); }
    }

    lemma MultipleDoubles(v: bv8 -> bv8, b: bv8)
      requires Valid() && forall m :: v(m) == Multiple(m, b)
      ensures Doubles(v)
    {
      forall m | m < 16 ensures xtime(v(m)) == v(m << 1) { MultipleDouble(m, b); }
    }

    lemma InvMixColOfMixCol(c: Col)
      requires Valid()
      ensures InvMixCol(MixCol(c)) == c
    {
      InvMixColXor(Xor(Xor(Mix0(c.b0), Mix1(c.b1)), Mix2(c.b2)), Mix3(c.b3));
      InvMixColXor(Xor(Mix0(c.b0), Mix1(c.b1)), Mix2(c.b2));
      InvMixColXor(Mix0(c.b0), Mix1(c.b1));
      MixedByte(c.b0);
      MixedByte(c.b1);
      MixedByte(c.b2);
      MixedByte(c.b3);
      Gather(c);
    }
  }

  /** Multiplication by x, section 4.2.1, and the code's XTIME. */
  function XTime(b: bv8): bv8 { (b << 1) ^ (if b & 0x80 != 0 then 0x1B else 0) }

  lemma XTimeBits(a: bv8, b: bv8)
    ensures XTime(a ^ b) == XTime(a) ^ XTime(b)
  {
    if a & 0x80 == 0 {
      if b & 0x80 == 0 {} else {}
    } else {
      if b & 0x80 == 0 {} else {}
    }
  }

  /** XTIME and any substitution that its inverse undoes make a field. */
  lemma StandardField(sub: bv8 -> bv8, invSub: bv8 -> bv8)
    requires forall b {:trigger sub(b)} :: invSub(sub(b)) == b
    ensures Field(b => XTime(b), sub, invSub).Valid()
  {
    var f := Field(b => XTime(b), sub, invSub);
    forall a, b ensures f.Additive(a, b) { XTimeBits(a, b); }
    forall b ensures f.Undone(b) {}
  }

  lemma Gather(c: Col)
    ensures Xor4(Col(c.b0, 0, 0, 0), Col(0, c.b1, 0, 0), Col(0, 0, c.b2, 0), Col(0, 0, 0, c.b3)) == c
  {
    AddLaws(0, 0);
    AddLaws(c.b0, 0);
    AddLaws(c.b1, 0);
    AddLaws(c.b2, 0);
    AddLaws(c.b3, 0);
  }
}
