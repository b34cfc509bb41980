/** The bytes of a small property list, and the order of its keys, apart from the functions they are defined by. */
module BplistLayout {
  import opened Words
  import opened Bplist

  // ---- Sizes ---------------------------------------------------------------------------------------------

  lemma Log2Of(v: nat)
    ensures 15 <= v < 0x100 ==> Log2(v) / 8 == 0
    ensures 0x100 <= v < 0x1_0000 ==> Log2(v) / 8 == 1
  {
    var a, b := 8, 16;
    assert Pow2(a) == 0x100 && Pow2(b) == 0x1_0000 by { Pow2Constants(); Pow2Add(8, 8); }
    if v >= 15 {
      Log2Below(v, a);
      Log2Below(v, b);
    }
  }

  /** The head of a string: its size with the kind up to 14, then in one more byte, then in two. */
  lemma StringHead(size: nat)
    ensures size < 15 ==> Head(STRING, size) == [0x50 + size]
    ensures 15 <= size < 0x100 ==> Head(STRING, size) == [0x5F, 0x10, size]
    ensures 0x100 <= size < 0x1_0000 ==> Head(STRING, size) == [0x5F, 0x11, size / 0x100, size % 0x100]
  {
    Log2Of(size);
    if 15 <= size < 0x100 { OneByte(size, 1); }
    if 0x100 <= size < 0x1_0000 { TwoBytes(size, 2); }
  }

  lemma OneByte(v: nat, w: nat)
    requires v < 0x100 && w == 1
    ensures BigEndian(v, w) == [v]
  {
    assert BigEndian(v / 0x100, w - 1) == [];
  }

  lemma TwoBytes(v: nat, w: nat)
    requires v < 0x1_0000 && w == 2
    ensures BigEndian(v, w) == [v / 0x100, v % 0x100]
  {
    OneByte(v / 0x100, w - 1);
  }

  lemma EightBytes(v: nat, w: nat)
    requires v < 0x100 && w == 8
    ensures BigEndian(v, w) == [0, 0, 0, 0, 0, 0, 0, v]
  {
    Zeros(v / 0x100, w - 1);
  }

  lemma Zeros(v: nat, w: nat)
    requires v == 0 && w == 7
    ensures BigEndian(v, w) == [0, 0, 0, 0, 0, 0, 0]
  {
    assert BigEndian(v, w - 6) == BigEndian(v, w - 7) + [0] == [0];
    assert BigEndian(v, w - 5) == BigEndian(v, w - 6) + [0] == [0, 0];
    assert BigEndian(v, w - 4) == BigEndian(v, w - 5) + [0] == [0, 0, 0];
    assert BigEndian(v, w - 3) == BigEndian(v, w - 4) + [0] == [0, 0, 0, 0];
    assert BigEndian(v, w - 2) == BigEndian(v, w - 3) + [0] == [0, 0, 0, 0, 0];
    assert BigEndian(v, w - 1) == BigEndian(v, w - 2) + [0] == [0, 0, 0, 0, 0, 0];
  }

  // ---- A small property list -----------------------------------------------------------------------------

  /** "a" with the string "b", and "c" with one byte of data. */
  function Small(): seq<Entry> { [Entry([0x61], Text([0x62])), Entry([0x63], Blob([0x64]))] }

  /** What stands before the table of offsets: the magic bytes, the dictionary with the indexes of its keys and then of
      its values, and each key with its value. */
  function SmallObjects(): seq<u8> {
    [0x62, 0x70, 0x6C, 0x69, 0x73, 0x74, 0x30, 0x30, 0xD2, 0x01, 0x02, 0x03, 0x04,
     0x51, 0x61, 0x51, 0x62, 0x51, 0x63, 0x41, 0x64]
  }

  /** The offsets of the dictionary, the keys and the values. */
  function SmallTable(): seq<u8> { [0x08, 0x0D, 0x11, 0x0F, 0x13] }

  /** Widths 1 and 1, five objects, the first on top, and where the table starts. */
  function SmallTrailer(): seq<u8> {
    [0, 0, 0, 0, 0, 0, 1, 1, 0, 0, 0, 0, 0, 0, 0, 5, 0, 0, 0, 0, 0, 0, 0, 0, 0, 0, 0, 0, 0, 0, 0, 21]
  }

  lemma SmallBody(items: seq<Entry>)
    requires items == Small()
    ensures Body(items[..1]) == [0x51, 0x61, 0x51, 0x62]
    ensures Body(items) == [0x51, 0x61, 0x51, 0x62, 0x51, 0x63, 0x41, 0x64]
  {
    assert items[..1][..0] == [] && items[..1][0] == items[0];
    assert Body(items[..1]) == Body([]) + PairBytes(items[0]);
    assert Body(items) == Body(items[..1]) + PairBytes(items[1]);
  }

  lemma SmallObjectsAre(items: seq<Entry>)
    requires items == Small()
    ensures Dictionary(1, |items|) == [0xD2, 0x01, 0x02, 0x03, 0x04] && Objects(items) == SmallObjects()
  {
    SmallBody(items);
  }

  lemma SmallOffsets(items: seq<Entry>)
    requires items == Small()
    ensures Offsets(items) == [8, 13, 17, 15, 19]
  {
    SmallBody(items);
    SmallObjectsAre(items);
    assert items[..0] == [] && Body(items[..0]) == [];
    var base := BodyStart(|items|);
    assert base == 13;
    assert Offset(base, items, 0) == 13 && Offset(base, items, 1) == 17;
    assert Offset(base, items, 2) == 15 && Offset(base, items, 3) == 19;
  }

  lemma OffsetsNext(offsets: seq<nat>, w: nat, before: seq<u8>, v: u8)
    requires w == 1 && offsets != [] && offsets[|offsets| - 1] == v
    requires OffsetBytes(offsets[..|offsets| - 1], w) == before
    ensures OffsetBytes(offsets, w) == before + [v]
  {
    OneByte(v, w);
  }

  lemma SmallTableIs(offsets: seq<nat>, w: nat)
    requires offsets == [8, 13, 17, 15, 19] && w == 1
    ensures OffsetBytes(offsets, w) == SmallTable()
  {
    assert offsets[..4][..3] == offsets[..3] && offsets[..3][..2] == offsets[..2] && offsets[..2][..1] == offsets[..1];
    assert offsets[..1][..0] == [] && OffsetBytes([], w) == [];
    OffsetsNext(offsets[..1], w, [], 8);
    OffsetsNext(offsets[..2], w, [8], 13);
    OffsetsNext(offsets[..3], w, [8, 13], 17);
    OffsetsNext(offsets[..4], w, [8, 13, 17], 15);
    OffsetsNext(offsets, w, [8, 13, 17, 15], 19);
  }

  /** All the bytes that toData returns for it. */
  lemma SmallData(items: seq<Entry>)
    requires items == Small()
    ensures Data(items) == SmallObjects() + SmallTable() + SmallTrailer()
  {
    SmallObjectsAre(items);
    SmallOffsets(items);
    SmallTrailerIs(|Objects(items)|, |Offsets(items)|);
    SmallTableIs(Offsets(items), OffsetSize(|Objects(items)|));
  }

  lemma SmallTrailerIs(size: nat, count: nat)
    requires size == 21 && count == 5
    ensures OffsetSize(size) == 1 && TrailerFor(size, count) == SmallTrailer()
  {
    Log2Of(size);
    EightBytes(count, Wide());
    EightBytes(0, Wide());
    EightBytes(size, Wide());
  }

  // ---- The order of keys -----------------------------------------------------------------------------------

  /** The common beginning of two keys. */
  function Common(a: seq<u8>, b: seq<u8>): (k: nat)
    ensures k <= |a| && k <= |b| && a[..k] == b[..k] && (k < |a| && k < |b| ==> a[k] != b[k])
  {
    if a == [] || b == [] || a[0] != b[0] then 0
    else
      var k := Common(a[1..], b[1..]);
      assert a[..k + 1] == [a[0]] + a[1..][..k] && b[..k + 1] == [b[0]] + b[1..][..k];
      k + 1
  }

  /** One key is before another when it is its beginning, or when the first byte in which they differ is smaller. */
  lemma {:induction false} LessIs(a: seq<u8>, b: seq<u8>)
    ensures Less(a, b) <==> var k := Common(a, b); k < |b| && (k == |a| || a[k] < b[k])
  {
    if a != [] && b != [] && a[0] == b[0] { LessIs(a[1..], b[1..]); }
  }

  /** A key that is there already keeps its entry. */
  lemma {:induction false} InsertPresent(entries: seq<Entry>, e: Entry)
    requires Ascending(entries) && HasKey(entries, e.key)
    ensures Insert(entries, e) == entries
    decreases |entries|
  {
    var i :| 0 <= i < |entries| && entries[i].key == e.key;
    if i > 0 {
      assert Less(entries[0].key, entries[i].key);
      LessOrder(entries[0].key, e.key);
      assert entries[1..][i - 1].key == e.key;
      InsertPresent(entries[1..], e);
      assert entries == [entries[0]] + entries[1..];
    }
  }
}
