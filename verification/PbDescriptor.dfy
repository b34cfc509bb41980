/** Field descriptors packed into one, two, four or eight words. */
module PbDescriptor {

  /** The parameters of one PB_FIELDINFO macro. kind is the eight-bit type. */
  datatype Info = Info(tag: bv32, kind: bv32, dataOffset: bv32, dataSize: bv32, sizeOffset: bv32, arraySize: bv32)

  predicate PbFits(value: bv32, limit: bv32) { value < limit }

  /** The cast to a signed byte, widened again. */
  function SignedByte(x: bv32): bv32 {
    if x & 0x80 != 0 then x | 0xFFFF_FF00 else x & 0xFF
  }

  /** PB_FIELDINFO_ASSERT_1, _2, _4 and _8, for a 16-bit pb_size_t; w is the base-2 logarithm of the width. */
  predicate Asserted(w: bv32, f: Info) {
    && f.kind < 0x100
    && if w == 0 then
         PbFits(f.tag, 0x40) && PbFits(f.dataOffset, 0x100) && PbFits(f.sizeOffset, 0x10)
         && PbFits(f.dataSize, 0x10) && PbFits(f.arraySize, 2)
       else if w == 1 then
         PbFits(f.tag, 0x400) && PbFits(f.dataOffset, 0x1_0000) && PbFits(f.sizeOffset, 0x10)
         && PbFits(f.dataSize, 0x1000) && PbFits(f.arraySize, 0x1000)
       else
         PbFits(f.tag, 0x1_0000) && PbFits(f.dataOffset, 0x1_0000) && PbFits(SignedByte(f.sizeOffset), 0x100)
         && PbFits(f.dataSize, 0x1_0000) && PbFits(f.arraySize, 0x1_0000)
  }

  /** The low 16 bits that every format has in common: width, low tag bits, type. */
  function Head(w: bv32, f: Info): bv32 { w | ((f.tag << 2) & 0xFF) | (f.kind << 8) }

  /** The second word of the two longest formats. */
  function Word1(f: Info): bv32 { SignedByte(f.sizeOffset) | ((f.tag << 2) & 0xFFFFFF00) }

  /** PB_FIELDINFO_1, _2, _4 and _8. */
  function Pack(w: bv32, f: Info): (words: seq<bv32>)
    ensures |words| == Width(w)
  {
    if w == 0 then
      [Head(0, f) | ((f.dataOffset & 0xFF) << 16) | ((f.sizeOffset & 0x0F) << 24) | ((f.dataSize & 0x0F) << 28)]
    else if w == 1 then
      [Head(1, f) | ((f.arraySize & 0xFFF) << 16) | ((f.sizeOffset & 0x0F) << 28),
       (f.dataOffset & 0xFFFF) | ((f.dataSize & 0xFFF) << 16) | ((f.tag & 0x3c0) << 22)]
    else if w == 2 then
      [Head(2, f) | ((f.arraySize & 0xFFFF) << 16), Word1(f), f.dataOffset, f.dataSize]
    else
      [Head(3, f), Word1(f), f.dataOffset, f.dataSize, f.arraySize, 0, 0, 0]
  }

  /** Descriptor length in words, 1 << w. */
  function Width(w: bv32): (n: nat)
    ensures 1 <= n <= 8
  {
    if w == 0 then 1 else if w == 1 then 2 else if w == 2 then 4 else 8
  }

  /** What the first word says in every format. */
  function WordLength(word0: bv32): nat { Width(word0 & 3) }
  function WordKind(word0: bv32): bv32 { (word0 >> 8) & 0xFF }
  function WordLowTag(word0: bv32): bv32 { (word0 >> 2) & 0x3F }

  /** The decoding branches of load_descriptor_values. */
  function Unpack(words: seq<bv32>): Info
    requires |words| >= 1 && |words| >= WordLength(words[0])
  {
    var word0 := words[0];
    var kind := (word0 >> 8) & 0xFF;
    if word0 & 3 == 0 then
      Info((word0 >> 2) & 0x3F, kind, (word0 >> 16) & 0xFF, (word0 >> 28) & 0x0F, (word0 >> 24) & 0x0F, 1)
    else if word0 & 3 == 1 then
      Info(((word0 >> 2) & 0x3F) | ((words[1] >> 28) << 6), kind, words[1] & 0xFFFF, (words[1] >> 16) & 0x0FFF,
           (word0 >> 28) & 0x0F, (word0 >> 16) & 0x0FFF)
    else if word0 & 3 == 2 then
      Info((((word0 >> 2) & 0x3F) | ((words[1] >> 8) << 6)) & 0xFFFF, kind, words[2], words[3] & 0xFFFF,
           SignedByte(words[1]), word0 >> 16)
    else
      Info((((word0 >> 2) & 0x3F) | ((words[1] >> 8) << 6)) & 0xFFFF, kind, words[2], words[3] & 0xFFFF,
           SignedByte(words[1]), words[4] & 0xFFFF)
  }

  /** What the static assertions do not catch: the one-word format has no room for an array size other
      than 1, and the assertion of the longest formats looks at the size offset after its cast to a byte. */
  predicate Representable(w: bv32, f: Info) {
    (w == 0 ==> f.arraySize == 1) && (w >= 2 ==> f.sizeOffset < 0x100)
  }

  /** Reading back a packed field that passes its static assertion gives the field, exactly when it is
      representable. */
  lemma UnpackPack(w: bv32, f: Info)
    requires w <= 3 && Asserted(w, f)
    ensures WordLength(Pack(w, f)[0]) == Width(w)
    ensures Unpack(Pack(w, f)) == f <==> Representable(w, f)
  {
    HeadLength(w, f);
    if w == 0 {
      UnpackPack1(f);
    } else if w == 1 {
      UnpackPack2(f);
    } else if w == 2 {
      UnpackPack4(f);
      OnlySizeOffset(f, Unpack(Pack(2, f)));
    } else {
      UnpackPack8(f);
      OnlySizeOffset(f, Unpack(Pack(3, f)));
    }
  }

  /** A field of one word without an array size comes back with an array size of 1. */
  lemma ArraySizeLost(f: Info)
    requires f == Info(1, 0, 0, 1, 0, 0)
    ensures Asserted(0, f) && Unpack(Pack(0, f)) == f.(arraySize := 1) != f
  {
    assert Pack(0, f)[0] == 0x1000_0004;
  }

  /** A field of four or eight words whose presence flag is 256 bytes away comes back without the distance. */
  lemma SizeOffsetLost(w: bv32, f: Info)
    requires 2 <= w <= 3 && f == Info(1, 0, 0, 1, 0x100, 1)
    ensures Asserted(w, f) && Unpack(Pack(w, f)) == f.(sizeOffset := 0) != f
  {
    assert Word1(f) == 0 && Head(2, f) == 6 && Head(3, f) == 7;
    if w == 2 { assert Pack(w, f)[0] == 0x1_0006; }
  }

  /** What the search and the stepping read of a first word, in any format. */
  lemma HeadLength(w: bv32, f: Info)
    requires w <= 3 && Asserted(w, f)
    ensures WordLength(Pack(w, f)[0]) == Width(w)
  {}

  lemma HeadKind(w: bv32, f: Info)
    requires w <= 3 && Asserted(w, f)
    ensures WordKind(Pack(w, f)[0]) == f.kind
  {}

  lemma HeadLowTag(w: bv32, f: Info)
    requires w <= 3 && Asserted(w, f)
    ensures WordLowTag(Pack(w, f)[0]) == f.tag & 0x3F
  {}

  lemma UnpackPack1(f: Info)
    requires Asserted(0, f)
    ensures Unpack(Pack(0, f)) == f.(arraySize := 1)
    ensures Unpack(Pack(0, f)) == f <==> Representable(0, f)
  {}

  lemma UnpackPack2(f: Info)
    requires Asserted(1, f)
    ensures Unpack(Pack(1, f)) == f && Representable(1, f)
  {}

  lemma UnpackPack4(f: Info)
    requires Asserted(2, f)
    ensures Unpack(Pack(2, f)) == f.(sizeOffset := f.sizeOffset & 0xFF)
  {
    HeadLength(2, f);
    HeadKind(2, f);
    HeadLowTag(2, f);
    Narrowed(f.sizeOffset);
    LongWord1(f.tag, f.sizeOffset & 0xFF);
    ArrayWord(f.tag, f.kind, f.arraySize);
  }

  lemma UnpackPack8(f: Info)
    requires Asserted(3, f)
    ensures Unpack(Pack(3, f)) == f.(sizeOffset := f.sizeOffset & 0xFF)
  {
    HeadLength(3, f);
    HeadKind(3, f);
    HeadLowTag(3, f);
    Narrowed(f.sizeOffset);
    LongWord1(f.tag, f.sizeOffset & 0xFF);
  }

  lemma OnlySizeOffset(f: Info, g: Info)
    requires SignedByte(f.sizeOffset) < 0x100 && g == f.(sizeOffset := f.sizeOffset & 0xFF)
    ensures g == f <==> f.sizeOffset < 0x100
  {
    Narrowed(f.sizeOffset);
  }

  lemma Narrowed(x: bv32)
    requires SignedByte(x) < 0x100
    ensures SignedByte(x) == x & 0xFF < 0x80
    ensures x & 0xFF == x <==> x < 0x100
  {}

  lemma LongWord1(tag: bv32, size: bv32)
    requires tag < 0x1_0000 && size < 0x80
    ensures var word1 := size | ((tag << 2) & 0xFFFFFF00);
            && SignedByte(word1) == size && ((tag & 0x3F) | ((word1 >> 8) << 6)) & 0xFFFF == tag
  {}

  lemma ArrayWord(tag: bv32, kind: bv32, arraySize: bv32)
    requires arraySize < 0x1_0000 && kind < 0x100
    ensures (2 | ((tag << 2) & 0xFF) | (kind << 8) | ((arraySize & 0xFFFF) << 16)) >> 16 == arraySize
  {}
}
