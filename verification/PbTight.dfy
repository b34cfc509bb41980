/** How close the generator's estimate is: values that need every byte of it. */
module PbTight {
  import opened Words
  import opened PbVarint
  import opened PbStream
  import opened PbModel
  import opened PbEncode
  import opened PbGenerator

  // ---- Scalars -------------------------------------------------------------------------------------------

  lemma SizeIs(v: nat, n: nat)
    requires n >= 1 && v < Pow2(7 * n) && (n == 1 || v >= Pow2(7 * (n - 1)))
    ensures |VarintBytes(v)| == n
  {
    CanonicalLength(v, n);
    if n > 1 { CanonicalAtLeast(v, n - 1); }
  }

  /** The largest numbers of one, two, four and eight bytes take 2, 3, 5 and 10 groups. */
  lemma LargestSizes()
    ensures |VarintBytes(0xFF)| == 2 && |VarintBytes(0xFFFF)| == 3
    ensures |VarintBytes(0xFFFF_FFFF)| == 5 && |VarintBytes(0xFFFF_FFFF_FFFF_FFFF)| == 10
  {
    SizeAt(0xFF, 2, 7, 14, 0x80, 0x4000);
    SizeAt(0xFFFF, 3, 14, 21, 0x4000, 0x20_0000);
    SizeAt(0xFFFF_FFFF, 5, 28, 35, 0x1000_0000, 0x8_0000_0000);
    SizeAt(0xFFFF_FFFF_FFFF_FFFF, 10, 63, 70, 0x8000_0000_0000_0000, 0x40_0000_0000_0000_0000);
  }

  lemma SizeAt(v: nat, n: nat, a: nat, b: nat, low: nat, high: nat)
    requires n >= 2 && a == 7 * (n - 1) && b == 7 * n && low <= v < high
    requires (n == 2 && low == 0x80 && high == 0x4000) || (n == 3 && low == 0x4000 && high == 0x20_0000)
          || (n == 5 && low == 0x1000_0000 && high == 0x8_0000_0000)
          || (n == 10 && low == 0x8000_0000_0000_0000 && high == 0x40_0000_0000_0000_0000)
    ensures |VarintBytes(v)| == n
  {
    assert Pow2(a) == low && Pow2(b) == high by { Pow2Constants(); Pow2Add(7, 7); Pow2Add(7, 14); }
    SizeIs(v, n);
  }

  /** The value of a row that needs the most bytes. */
  function Widest(s: Scalar, n: IntSizeOption): int {
    match s
    case Bool => 1
    case Int32 | Int64 => -1
    case SInt32 | SInt64 => -(IntRange(TableData(s, n)) / 2)
    case UInt32 | UInt64 => IntRange(TableData(s, n)) - 1
    case _ => 0
  }

  lemma WidestFits(s: Scalar, n: IntSizeOption, f: Field)
    requires f.ltype == ScalarLType(s) && f.dataSize == TableData(s, n)
    ensures TypedValue(f, VInt(Widest(s, n))) && EncScalar(f, Widest(s, n)).Some?
    ensures f.ltype.LVarint? || f.ltype.LUVarint? || f.ltype.LSVarint? ==> IntSize(f.dataSize)
  {}

  /** Every row of the table of scalar types is attained. */
  lemma ScalarTight(s: Scalar, n: IntSizeOption, f: Field)
    requires f.ltype == ScalarLType(s) && f.dataSize == TableData(s, n)
    ensures TypedValue(f, VInt(Widest(s, n))) && EncScalar(f, Widest(s, n)).Some?
    ensures |EncScalar(f, Widest(s, n)).value| == TableSize(s, n)
  {
    WidestFits(s, n, f);
    match f.ltype {
      case LVarint => LargestSizes(); assert ToU64(-1) == 0xFFFF_FFFF_FFFF_FFFF;
      case LUVarint => LargestIs(f.dataSize);
      case LSVarint => LargestIs(f.dataSize); ZigZagOfLeast(IntRange(f.dataSize));
      case _ =>
    }
  }

  lemma ZigZagOfLeast(range: int)
    requires range % 2 == 0 && range > 0
    ensures ZigZag(-(range / 2)) == range - 1
  {}

  lemma LargestIs(w: nat)
    requires IntSize(w)
    ensures |VarintBytes(IntRange(w) - 1)| == if w == 1 then 2 else if w == 2 then 3 else if w == 4 then 5 else 10
  {
    LargestSizes();
  }

  // ---- Other types ---------------------------------------------------------------------------------------

  /** A declared value attains the estimate of its enum. */
  lemma {:induction false} EnumTight(values: seq<int>, f: Field) returns (v: int)
    requires EnumSize(values).Some? && f.ltype.LVarint? && IntSize(f.dataSize)
    requires forall x :: x in values ==> TypedValue(f, VInt(x))
    ensures v in values && EncScalar(f, v).Some? && |EncScalar(f, v).value| == EnumSize(values).value
    decreases |values|
  {
    var last := values[|values| - 1];
    OneTight(f, last);
    if |values| == 1 || EnumSize(values) == VarintMaxSize(last) {
      v := last;
    } else {
      v := EnumTight(values[..|values| - 1], f);
    }
  }

  lemma OneTight(f: Field, v: int)
    requires f.ltype.LVarint? && IntSize(f.dataSize) && TypedValue(f, VInt(v)) && VarintMaxSize(v).Some?
    ensures EncScalar(f, v).Some? && |EncScalar(f, v).value| == VarintMaxSize(v).value
  {
    var nine, ten := 9, 10;
    assert Pow2(7 * nine) == 0x8000_0000_0000_0000 && Pow2(7 * ten) == 0x40_0000_0000_0000_0000 by { Pow2Constants(); }
    if v < 0 {
      SizeIs(ToU64(v), ten);
      SizeIs(TWO64 - v, ten);
    }
  }

  lemma PrefixedLength(b: seq<u8>)
    requires |b| < TWO64
    ensures |LengthPrefixed(b)| == |VarintBytes(|b|)| + |b|
  {
    PrefixedIs(b);
  }

  lemma SmallSize(n: nat)
    requires n < TWO32
    ensures VarintMaxSize(n) == Some(|VarintBytes(n)|)
  {
    var a := 70;
    assert Pow2(a) == 0x40_0000_0000_0000_0000 by { Pow2Constants(); }
  }

  /** Bytes as many as declared need what is estimated, and a string with its terminator left out one byte less only
      when its declared size is the first to need a longer length. */
  lemma BlockTight(b: seq<u8>, n: nat)
    requires n < TWO32
    ensures |b| == n ==> TypeSize(GBytes(n)) == TypeSize(GFixedBytes(n)) == Some(|LengthPrefixed(b)|)
    ensures n >= 1 && |b| == n - 1 ==>
              TypeSize(GString(n)) == Some(|LengthPrefixed(b)| + |VarintBytes(n)| - |VarintBytes(n - 1)|)
    ensures n >= 1 ==> 0 <= |VarintBytes(n)| - |VarintBytes(n - 1)| <= 1
  {
    SmallSize(n);
    if |b| == n || |b| == n - 1 { PrefixedLength(b); }
    if n >= 1 { var k: nat := n - 1; NextSize(k); assert k + 1 == n; }
  }

  lemma {:induction false} NextSize(v: nat)
    ensures |VarintBytes(v)| <= |VarintBytes(v + 1)| <= |VarintBytes(v)| + 1
  {
    if v + 1 >= 128 && v >= 128 {
      if (v + 1) / 128 > v / 128 { NextSize(v / 128); }
    }
  }

  /** An enum that is declared elsewhere is estimated as the largest there can be; a submessage at its own size and the
      length of that. */
  lemma OthersTight(f: Field, g: GMsg, b: seq<u8>)
    requires f.ltype.LVarint? && f.dataSize == 4
    ensures EncScalar(f, -1).Some? && TypeSize(GUnknownEnum) == Some(|EncScalar(f, -1).value|)
    ensures |b| < TWO32 && MessageSize(g, |g.items|) == Some(|b|) ==>
              TypeSize(GMessage(g)) == Some(|LengthPrefixed(b)|)
  {
    LargestSizes();
    assert ToU64(-1) == 0xFFFF_FFFF_FFFF_FFFF;
    if |b| < TWO32 {
      SmallSize(|b|);
      PrefixedLength(b);
    }
  }

  // ---- Fields --------------------------------------------------------------------------------------------

  /** A value that needs what its type is estimated at makes its field need the estimate of the field. */
  lemma FieldTight(g: GField, f: Field, v: Value)
    requires f.tag == g.tag < 0x2000_0000 && g.maxCount.None? && TypedValue(f, v) && EncValue(f, v).Some?
    requires TypeSize(g.gtype) == Some(|EncValue(f, v).value|)
    ensures EncTagged(f, v).Some? && FieldSize(g) == Some(|EncTagged(f, v).value|)
  {
    SmallSize(g.tag * 8);
    TagSize(g.tag, WireType(f.ltype));
  }

  lemma {:induction false} ItemsTight(f: Field, items: seq<Value>, v: Value, k: nat)
    requires k <= |items| && TypedItems(f, items) && forall i :: 0 <= i < |items| ==> items[i] == v
    requires TypedValue(f, v) && EncTagged(f, v).Some?
    ensures EncItems(f, items, k).Some? && |EncItems(f, items, k).value| == |EncTagged(f, v).value| * k
    decreases k
  {
    var l := |EncTagged(f, v).value|;
    if k > 0 {
      var j := k - 1;
      assert items[j] == v;
      ItemsTight(f, items, v, j);
      OneMoreTime(l, j);
    }
  }

  lemma OneMoreTime(l: nat, j: nat)
    ensures l * j + l == l * (j + 1)
  {}

  /** So do as many of them as an array that is not packed can hold. */
  lemma {:induction false} ArrayTight(g: GField, f: Field, items: seq<Value>, v: Value, n: nat)
    requires f.tag == g.tag < 0x2000_0000 && g.maxCount == Some(n) && n != 1 && n == |items| == f.arraySize
    requires !f.ltype.Packable() && TypedItems(f, items) && forall i :: 0 <= i < n ==> items[i] == v
    requires TypedValue(f, v) && EncValue(f, v).Some? && TypeSize(g.gtype) == Some(|EncValue(f, v).value|)
    ensures EncArray(f, items).Some? && FieldSize(g) == Some(|EncArray(f, items).value|)
  {
    SmallSize(g.tag * 8);
    TagSize(g.tag, WireType(f.ltype));
    ItemsTight(f, items, v, n);
  }

  /** A packed array of one item needs the allowance of one byte for its length. */
  lemma PackedTight(g: GField, f: Field, items: seq<Value>)
    requires f.tag == g.tag < 0x2000_0000 && g.maxCount == Some(1) && |items| == 1 && f.ltype.Packable()
    requires TypedItems(f, items) && items[0].VInt? && TypedValue(f, items[0]) && EncScalar(f, items[0].n).Some?
    requires TypeSize(g.gtype) == Some(|EncScalar(f, items[0].n).value|) && TypeSize(g.gtype).value < 128
    ensures EncPacked(f, items).Some? && FieldSize(g) == Some(|EncPacked(f, items).value|)
  {
    var one := 1;
    var e := EncScalar(f, items[0].n).value;
    assert Payload(f, items, one - 1) == Some([]) && [] + e == e;
    assert Payload(f, items, one) == Some(e);
    PrefixedLength(e);
    SmallSize(g.tag * 8);
    TagSize(g.tag, WT_STRING);
  }

  /** A union is estimated at one of its members. */
  lemma {:induction false} OneOfTight(fields: seq<GField>, k: nat) returns (i: nat)
    requires 1 <= k <= |fields| && OneOfSize(fields, k).Some?
    ensures i < k && FieldSize(fields[i]) == OneOfSize(fields, k)
    decreases k
  {
    i := k - 1;
    if k > 1 && OneOfSize(fields, k) != FieldSize(fields[k - 1]) { i := OneOfTight(fields, k - 1); }
  }

  // ---- Messages --------------------------------------------------------------------------------------------

  /** A message of required fields, in the order of their declaration, each of which needs its estimate, needs the
      estimate of the message. */
  lemma {:induction false} MessageTight(g: GMsg, d: MsgDesc, m: seq<Slot>, k: nat)
    requires Typed(d, m) && |g.items| == |m| && k <= |m|
    requires forall i :: 0 <= i < |m| ==> g.items[i].Plain? && d.fields[i].htype.Required?
    requires forall i :: 0 <= i < |m| ==> Attains(g.items[i].field, d.fields[i], m[i])
    ensures EncUpTo(d, m, k).Some? && MessageSize(g, k) == Some(|EncUpTo(d, m, k).value|)
    decreases k
  {
    if k > 0 {
      MessageTight(g, d, m, k - 1);
      assert Attains(g.items[k - 1].field, d.fields[k - 1], m[k - 1]) && g.items[k - 1].Plain?;
    }
  }

  predicate Attains(g: GField, f: Field, s: Slot) {
    s.Single? && TypedValue(f, s.v) && EncTagged(f, s.v).Some? && FieldSize(g) == Some(|EncTagged(f, s.v).value|)
  }
}
