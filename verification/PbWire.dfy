/** Byte strings that Google's "Encoding" guide for Protocol Buffers prints, and others of the same forms. They fix the
    wire format apart from the functions it is defined by. */
module PbWire {
  import opened Words
  import opened PbVarint
  import opened PbStream
  import opened PbModel
  import opened PbEncode

  /** A number below 2^21, group by group. */
  lemma Groups(v: nat)
    ensures v < 0x80 ==> VarintBytes(v) == [v]
    ensures 0x80 <= v < 0x4000 ==> VarintBytes(v) == [v % 0x80 + 0x80, v / 0x80]
    ensures 0x4000 <= v < 0x20_0000 ==>
              VarintBytes(v) == [v % 0x80 + 0x80, v / 0x80 % 0x80 + 0x80, v / 0x4000]
  {
    if v >= 0x4000 { Halves(v); }
  }

  lemma Halves(v: nat)
    ensures v / 0x80 / 0x80 == v / 0x4000
  {}

  /** A tag, data, and the two together. */
  lemma TaggedIs(f: Field, v: Value, t: seq<u8>, b: seq<u8>, whole: seq<u8>)
    requires TypedValue(f, v) && FieldTag(f) == t && EncValue(f, v) == Some(b) && whole == t + b
    ensures EncTagged(f, v) == Some(whole)
  {}

  /** The section "A Simple Message": field 1 with the number 150. */
  lemma SimpleMessage(f: Field)
    requires f.tag == 1 && f.ltype == LVarint && f.dataSize == 4
    ensures TypedValue(f, VInt(150)) && EncTagged(f, VInt(150)) == Some([0x08, 0x96, 0x01])
  {
    Groups(150);
    Groups(8);
    assert EncValue(f, VInt(150)) == EncScalar(f, 150);
    TaggedIs(f, VInt(150), [0x08], [0x96, 0x01], [0x08, 0x96, 0x01]);
  }

  /** "Length-Delimited Records": field 2 with the string "testing". */
  lemma TestingString(f: Field, b: seq<u8>)
    requires f.tag == 2 && f.ltype == LString && f.dataSize >= 8
    requires b == [0x74, 0x65, 0x73, 0x74, 0x69, 0x6E, 0x67]
    ensures TypedValue(f, VBytes(b)) && EncTagged(f, VBytes(b)) == Some([0x12, 0x07] + b)
  {
    Groups(18);
    Groups(7);
    TaggedIs(f, VBytes(b), [0x12], [0x07] + b, [0x12, 0x07] + b);
  }

  /** "Submessages": field 3 with the simple message in it. */
  lemma Submessage(f: Field, g: Field, v: Value)
    requires g.tag == 1 && g.ltype == LVarint && g.dataSize == 4 && g.htype == Required
    requires f.tag == 3 && f.ltype == LSubmsg(MsgDesc([g], false)) && v == VMsg([Single(VInt(150))])
    ensures TypedValue(f, v) && EncTagged(f, v) == Some([0x1A, 0x03, 0x08, 0x96, 0x01])
  {
    var d := f.ltype.sub;
    var m := [Single(VInt(150))];
    SimpleMessage(g);
    assert Typed(d, m);
    OneField(d, m, [0x08, 0x96, 0x01]);
    Groups(26);
    Groups(3);
    assert EncValue(f, v) == Some(LengthPrefixed([0x08, 0x96, 0x01]));
    assert LengthPrefixed([0x08, 0x96, 0x01]) == [0x03, 0x08, 0x96, 0x01];
    TaggedIs(f, v, [0x1A], [0x03, 0x08, 0x96, 0x01], [0x1A, 0x03, 0x08, 0x96, 0x01]);
  }

  lemma OneField(d: MsgDesc, m: seq<Slot>, b: seq<u8>)
    requires Typed(d, m) && |m| == 1 && TypedSlot(d.fields[0], m[0]) && EncSlot(d, d.fields[0], m[0]) == Some(b)
    ensures EncMsg(d, m) == Some(b)
  {
    var one := 1;
    assert EncUpTo(d, m, one) == Cat(EncUpTo(d, m, one - 1), EncSlot(d, d.fields[0], m[0]));
    assert [] + b == b;
  }

  /** "Packed": field 4 with 3, 270 and 86942. */
  lemma PackedRepeated(f: Field, items: seq<Value>)
    requires f.tag == 4 && f.ltype == LVarint && f.dataSize == 4 && items == [VInt(3), VInt(270), VInt(86942)]
    ensures TypedItems(f, items)
    ensures EncPacked(f, items) == Some([0x22, 0x06, 0x03, 0x8E, 0x02, 0x9E, 0xA7, 0x05])
  {
    Groups(3); Groups(270); Groups(86942);
    PayloadIs(f, items, 0, [], [0x03], [0x03]);
    PayloadIs(f, items, 1, [0x03], [0x8E, 0x02], [0x03, 0x8E, 0x02]);
    PayloadIs(f, items, 2, [0x03, 0x8E, 0x02], [0x9E, 0xA7, 0x05], [0x03, 0x8E, 0x02, 0x9E, 0xA7, 0x05]);
    Groups(34);
    Groups(6);
    assert LengthPrefixed([0x03, 0x8E, 0x02, 0x9E, 0xA7, 0x05]) == [0x06, 0x03, 0x8E, 0x02, 0x9E, 0xA7, 0x05];
    assert [0x22] + [0x06, 0x03, 0x8E, 0x02, 0x9E, 0xA7, 0x05] == [0x22, 0x06, 0x03, 0x8E, 0x02, 0x9E, 0xA7, 0x05];
  }

  lemma PayloadIs(f: Field, items: seq<Value>, k: nat, b: seq<u8>, e: seq<u8>, more: seq<u8>)
    requires f.ltype.Packable() && TypedItems(f, items) && k < |items| && Payload(f, items, k) == Some(b)
    requires items[k].VInt? && TypedValue(f, items[k]) && EncScalar(f, items[k].n) == Some(e) && more == b + e
    ensures Payload(f, items, k + 1) == Some(more)
  {}

  /** "More Integer Types": a negative number takes ten bytes. */
  lemma Negative(f: Field, n: int)
    requires f.tag == 1 && f.ltype == LVarint && f.dataSize == 4 && n == -2
    ensures TypedValue(f, VInt(n))
    ensures EncTagged(f, VInt(n)) == Some([0x08, 0xFE, 0xFF, 0xFF, 0xFF, 0xFF, 0xFF, 0xFF, 0xFF, 0xFF, 0x01])
  {
    var u := ToU64(n);
    Groups(8);
    MinusTwo(u);
    assert EncValue(f, VInt(n)) == EncScalar(f, n) == Some(VarintBytes(u));
    TaggedIs(f, VInt(n), [0x08], [0xFE, 0xFF, 0xFF, 0xFF, 0xFF, 0xFF, 0xFF, 0xFF, 0xFF, 0x01],
             [0x08, 0xFE, 0xFF, 0xFF, 0xFF, 0xFF, 0xFF, 0xFF, 0xFF, 0xFF, 0x01]);
  }

  /** A zigzag number takes as many as its magnitude needs. */
  lemma ZigZags(z: Field)
    requires z.tag == 1 && z.ltype == LSVarint && z.dataSize == 4
    ensures TypedValue(z, VInt(-1)) && EncTagged(z, VInt(-1)) == Some([0x08, 0x01])
    ensures TypedValue(z, VInt(1)) && EncTagged(z, VInt(1)) == Some([0x08, 0x02])
    ensures TypedValue(z, VInt(-2)) && EncTagged(z, VInt(-2)) == Some([0x08, 0x03])
  {
    ZigZagIs(z, -1, 0x01);
    ZigZagIs(z, 1, 0x02);
    ZigZagIs(z, -2, 0x03);
  }

  lemma ZigZagIs(z: Field, n: int, b: u8)
    requires z.tag == 1 && z.ltype == LSVarint && z.dataSize == 4 && -64 <= n < 64
    requires ZigZag(n) == b
    ensures TypedValue(z, VInt(n)) && EncTagged(z, VInt(n)) == Some([0x08, b])
  {
    Groups(8);
    Groups(b);
    assert EncValue(z, VInt(n)) == EncScalar(z, n);
    TaggedIs(z, VInt(n), [0x08], [b], [0x08, b]);
  }

  lemma MinusTwo(v: nat)
    requires v == 0xFFFF_FFFF_FFFF_FFFE
    ensures VarintBytes(v) == [0xFE, 0xFF, 0xFF, 0xFF, 0xFF, 0xFF, 0xFF, 0xFF, 0xFF, 0x01]
  {
    assert v / 128 == 0x1FF_FFFF_FFFF_FFFF;
    Group(v, 0x1FF_FFFF_FFFF_FFFF);
    Group(0x1FF_FFFF_FFFF_FFFF, 0x3_FFFF_FFFF_FFFF);
    Group(0x3_FFFF_FFFF_FFFF, 0x7FF_FFFF_FFFF);
    Group(0x7FF_FFFF_FFFF, 0xF_FFFF_FFFF);
    Group(0xF_FFFF_FFFF, 0x1FFF_FFFF);
    Group(0x1FFF_FFFF, 0x3F_FFFF);
    Group(0x3F_FFFF, 0x7FFF);
    Groups(0x7FFF);
  }

  lemma Group(v: nat, next: nat)
    requires v >= 128 && next == v / 128
    ensures VarintBytes(v) == [128 + v % 128] + VarintBytes(next)
  {}

  /** "Non-varint Numbers": little endian, in wire types 5 and 1. */
  lemma Fixed(f: Field, g: Field)
    requires f.tag == 1 && f.ltype == LFixed32 && g.tag == 1 && g.ltype == LFixed64
    ensures TypedValue(f, VInt(0x0403_0201)) && TypedValue(g, VInt(0x0807_0605_0403_0201))
    ensures EncTagged(f, VInt(0x0403_0201)) == Some([0x0D, 0x01, 0x02, 0x03, 0x04])
    ensures EncTagged(g, VInt(0x0807_0605_0403_0201))
         == Some([0x09, 0x01, 0x02, 0x03, 0x04, 0x05, 0x06, 0x07, 0x08])
  {
    Groups(13);
    Groups(9);
    Little4(0x0403_0201, 4);
    Little8(0x0807_0605_0403_0201, 8);
    assert EncValue(f, VInt(0x0403_0201)) == EncScalar(f, 0x0403_0201);
    assert EncValue(g, VInt(0x0807_0605_0403_0201)) == EncScalar(g, 0x0807_0605_0403_0201);
    TaggedIs(f, VInt(0x0403_0201), [0x0D], [0x01, 0x02, 0x03, 0x04], [0x0D, 0x01, 0x02, 0x03, 0x04]);
    TaggedIs(g, VInt(0x0807_0605_0403_0201), [0x09], [0x01, 0x02, 0x03, 0x04, 0x05, 0x06, 0x07, 0x08],
             [0x09, 0x01, 0x02, 0x03, 0x04, 0x05, 0x06, 0x07, 0x08]);
  }

  lemma Little4(n: nat, w: nat)
    requires n == 0x0403_0201 && w == 4
    ensures LeBytes(n, w) == [1, 2, 3, 4]
  {
    assert LeBytes(n / 0x100_0000, w - 3) == [4];
    assert LeBytes(n / 0x1_0000, w - 2) == [3, 4];
    assert LeBytes(n / 0x100, w - 1) == [2, 3, 4];
  }

  lemma Little8(n: nat, w: nat)
    requires n == 0x0807_0605_0403_0201 && w == 8
    ensures LeBytes(n, w) == [1, 2, 3, 4, 5, 6, 7, 8]
  {}

  /** true, and the largest number of 32 bits in a field of a two-byte tag. */
  lemma Others(f: Field, g: Field)
    requires f.tag == 15 && f.ltype == LBool && g.tag == 16 && g.ltype == LUVarint && g.dataSize == 4
    ensures TypedValue(f, VInt(1)) && EncTagged(f, VInt(1)) == Some([0x78, 0x01])
    ensures TypedValue(g, VInt(0xFFFF_FFFF))
    ensures EncTagged(g, VInt(0xFFFF_FFFF)) == Some([0x80, 0x01, 0xFF, 0xFF, 0xFF, 0xFF, 0x0F])
  {
    Groups(120); Groups(1); Groups(128);
    assert EncValue(f, VInt(1)) == EncScalar(f, 1);
    TaggedIs(f, VInt(1), [0x78], [0x01], [0x78, 0x01]);
    Group(0xFFFF_FFFF, 0x1FF_FFFF);
    Group(0x1FF_FFFF, 0x3_FFFF);
    Groups(0x3_FFFF);
    assert VarintBytes(0x1FF_FFFF) == [0xFF, 0xFF, 0xFF, 0x0F];
    assert VarintBytes(0xFFFF_FFFF) == [0xFF, 0xFF, 0xFF, 0xFF, 0x0F];
    assert EncValue(g, VInt(0xFFFF_FFFF)) == EncScalar(g, 0xFFFF_FFFF);
    TaggedIs(g, VInt(0xFFFF_FFFF), [0x80, 0x01], [0xFF, 0xFF, 0xFF, 0xFF, 0x0F],
             [0x80, 0x01, 0xFF, 0xFF, 0xFF, 0xFF, 0x0F]);
  }
}
