/** The binary property list writer and reader (common/libraop/src/bplist.cpp): one dictionary of strings and data. */
module Bplist {
  import opened Words

  const DICTIONARY: u8 := 0xd0
  const STRING: u8 := 0x50
  const DATA: u8 := 0x40

  /** A value of the dictionary; Empty is a value not read yet. */
  datatype Value = Empty | Text(bytes: seq<u8>) | Blob(bytes: seq<u8>)

  datatype Entry = Entry(key: seq<u8>, value: Value)

  // ----- Big-endian numbers -----

  /** The w bytes of v, most significant first. */
  function BigEndian(v: nat, w: nat): (b: seq<u8>)
    ensures |b| == w
  {
    if w == 0 then [] else BigEndian(v / 0x100, w - 1) + [v % 0x100]
  }

  /** The number in the n bytes from pos on. */
  function Number(s: seq<u8>, pos: nat, n: nat): nat
    requires pos + n <= |s|
  {
    if n == 0 then 0 else Number(s, pos, n - 1) * 0x100 + s[pos + n - 1]
  }

  /** The bytes of part stand in s from pos on. */
  ghost predicate At(s: seq<u8>, pos: nat, part: seq<u8>) {
    pos + |part| <= |s| && s[pos..pos + |part|] == part
  }

  lemma AtParts(s: seq<u8>, pos: nat, a: seq<u8>, b: seq<u8>)
    requires At(s, pos, a + b)
    ensures At(s, pos, a) && At(s, pos + |a|, b)
  {
    var t := s[pos..pos + |a + b|];
    assert t[..|a|] == a && t[|a|..] == b;
    assert s[pos..pos + |a|] == t[..|a|] && s[pos + |a|..pos + |a| + |b|] == t[|a|..];
  }

  lemma AtJoined(a: seq<u8>, b: seq<u8>, c: seq<u8>)
    ensures At(a + b + c, |a|, b)
  {
    assert (a + b + c)[|a|..|a| + |b|] == b;
  }

  lemma {:induction false} NumberBack(s: seq<u8>, pos: nat, v: nat, w: nat)
    requires At(s, pos, BigEndian(v, w)) && v < Pow2(8 * w)
    ensures Number(s, pos, w) == v
    decreases w
  {
    if w > 0 {
      AtParts(s, pos, BigEndian(v / 0x100, w - 1), [v % 0x100]);
      Pow2Byte(8 * (w - 1));
      NumberBack(s, pos, v / 0x100, w - 1);
      assert s[pos + w - 1..pos + w] == [v % 0x100];
    }
  }

  // ----- Objects -----

  /** The number of times v can be halved: log2 rounded down. */
  function Log2(v: nat): nat { if v < 2 then 0 else 1 + Log2(v / 2) }

  /** insertObject: the kind and size of an object. A size of 15 or more is a number after it. */
  function Head(id: u8, size: nat): seq<u8>
    requires id % 16 == 0
  {
    if size < 15 then [id + size] else [id + 15, 0x10 + Log2(size) / 8 % 16] + BigEndian(size, Log2(size) / 8 + 1)
  }

  /** What readCount finds, and where it stops. */
  datatype Count = Count(size: nat, next: nat)

  /** The size is among the bytes, and its width, which the source keeps in a byte, is at most 128. */
  predicate CanCount(s: seq<u8>, pos: nat) {
    && pos < |s|
    && (s[pos] % 16 == 15 ==>
          pos + 1 < |s| && s[pos + 1] % 16 < 8 && pos + 2 + Pow2(s[pos + 1] % 16) <= |s|)
  }

  /** readCount: the second byte holds the logarithm of the number of bytes that the size takes; size_t wraps. */
  function ReadCountAt(s: seq<u8>, pos: nat): Count
    requires CanCount(s, pos)
  {
    if s[pos] % 16 != 15 then Count(s[pos] % 16, pos + 1)
    else
      var n := Pow2(s[pos + 1] % 16);
      Count(Number(s, pos + 2, n) % TWO64, pos + 2 + n)
  }

  lemma {:induction false} Log2Bounds(v: nat)
    requires v >= 1
    ensures Pow2(Log2(v)) <= v < Pow2(Log2(v) + 1)
  {
    if v >= 2 { Log2Bounds(v / 2); }
  }

  /** The bytes of a size hold it. */
  lemma SizeFits(v: nat)
    requires v >= 1
    ensures v < Pow2(8 * (Log2(v) / 8 + 1))
  {
    Log2Bounds(v);
    Pow2Mono(Log2(v) + 1, 8 * (Log2(v) / 8 + 1));
  }

  lemma Log2Below(v: nat, n: nat)
    requires v >= 1
    ensures v < Pow2(n) <==> Log2(v) < n
  {
    Log2Bounds(v);
    if Log2(v) < n { Pow2Mono(Log2(v) + 1, n); } else { Pow2Mono(n, Log2(v)); }
  }

  lemma Pow2Of16(n: nat)
    requires n == 16
    ensures Pow2(n) == 0x1_0000 && Pow2(2 * n) == TWO32
  {
    Pow2Constants();
    Pow2Add(8, 8);
  }

  /** The two bytes before a size of 15 or more, and the size. */
  lemma HeadParts(s: seq<u8>, pos: nat, id: u8, size: nat, b: nat)
    requires id % 16 == 0 && size >= 15 && b == Log2(size) / 8 < 16 && At(s, pos, Head(id, size))
    ensures pos + 2 + (b + 1) <= |s| && s[pos] == id + 15 && s[pos + 1] == 0x10 + b
    ensures Number(s, pos + 2, b + 1) == size && |Head(id, size)| == b + 3
  {
    var first := [id + 15, 0x10 + b];
    AtParts(s, pos, first, BigEndian(size, b + 1));
    assert s[pos..pos + 2][0] == first[0] && s[pos..pos + 2][1] == first[1];
    SizeFits(size);
    NumberBack(s, pos + 2, size, b + 1);
  }

  lemma ShortLog(size: nat, n: nat)
    requires 15 <= size < 0x1_0000 && n == 16
    ensures Log2(size) / 8 <= 1 && Pow2(Log2(size) / 8) == Log2(size) / 8 + 1
  {
    Pow2Of16(n);
    Log2Below(size, n);
  }

  lemma ShortHead(s: seq<u8>, pos: nat, id: u8, size: nat)
    requires id % 16 == 0 && size < 15 && At(s, pos, Head(id, size))
    ensures pos < |s| && s[pos] == id + size && |Head(id, size)| == 1
  {
    assert s[pos..pos + 1][0] == id + size;
  }

  /** A size below 65536 is read back: up to there the logarithm of the number of bytes is the number less one. */
  lemma CountBack(s: seq<u8>, pos: nat, id: u8, size: nat)
    requires id % 16 == 0 && size < 0x1_0000 && At(s, pos, Head(id, size))
    ensures CanCount(s, pos) && ReadCountAt(s, pos) == Count(size, pos + |Head(id, size)|)
    ensures s[pos] / 16 == id / 16
  {
    if size < 15 {
      ShortHead(s, pos, id, size);
    } else {
      var b := Log2(size) / 8;
      ShortLog(size, 16);
      HeadParts(s, pos, id, size, b);
      SmallEnough(size);
      LongCount(s, pos, id, b, b + 1);
    }
  }

  lemma LongCount(s: seq<u8>, pos: nat, id: u8, b: nat, n: nat)
    requires id % 16 == 0 && b < 8 && n == Pow2(b) && pos + 2 + n <= |s| && s[pos] == id + 15 && s[pos + 1] == 0x10 + b
    ensures CanCount(s, pos) && ReadCountAt(s, pos) == Count(Number(s, pos + 2, n) % TWO64, pos + 2 + n)
    ensures s[pos] / 16 == id / 16
  {
    assert s[pos] % 16 == 15 && s[pos + 1] % 16 == b;
  }

  lemma SmallEnough(size: nat)
    requires size < TWO32
    ensures size % TWO64 == size
  {}

  lemma {:induction false} NumberGrows(s: seq<u8>, pos: nat, n: nat, more: nat)
    requires pos + n + more <= |s|
    ensures Number(s, pos, n + more) >= Number(s, pos, n)
    ensures more > 0 && Number(s, pos, n) > 0 ==> Number(s, pos, n + more) > Number(s, pos, n)
    decreases more
  {
    if more > 0 { NumberGrows(s, pos, n, more - 1); }
  }

  /** The writer and the reader agree on a size below 2^32 exactly when it is below 65536: from there on the writer
      announces more bytes than it writes. */
  lemma CountBackExactly(s: seq<u8>, pos: nat, id: u8, size: nat)
    requires id % 16 == 0 && size < TWO32 && At(s, pos, Head(id, size)) && pos + 18 <= |s|
    ensures CanCount(s, pos) && (ReadCountAt(s, pos).size == size <==> size < 0x1_0000)
  {
    if size < 0x1_0000 {
      CountBack(s, pos, id, size);
    } else {
      LongLog(size, 16);
      CountGrows(s, pos, id, size, Log2(size) / 8);
    }
  }

  lemma LongLog(size: nat, n: nat)
    requires 0x1_0000 <= size < TWO32 && n == 16
    ensures 2 <= Log2(size) / 8 <= 3
  {
    Pow2Of16(n);
    Log2Below(size, n);
    Log2Below(size, 2 * n);
  }

  lemma CountGrows(s: seq<u8>, pos: nat, id: u8, size: nat, b: nat)
    requires id % 16 == 0 && size >= 15 && b == Log2(size) / 8 && 2 <= b <= 3
    requires At(s, pos, Head(id, size)) && pos + 18 <= |s|
    ensures CanCount(s, pos) && ReadCountAt(s, pos).size > size
  {
    HeadParts(s, pos, id, size, b);
    Announced(b);
    AnnouncedCount(s, pos, id, b, size, Pow2(b), b + 1);
  }

  lemma AnnouncedCount(s: seq<u8>, pos: nat, id: u8, b: nat, size: nat, n: nat, w: nat)
    requires id % 16 == 0 && b < 8 && n == Pow2(b) && w < n <= 8 && pos + 18 <= |s| && size > 0
    requires s[pos] == id + 15 && s[pos + 1] == 0x10 + b && Number(s, pos + 2, w) == size
    ensures CanCount(s, pos) && ReadCountAt(s, pos).size > size
  {
    LongCount(s, pos, id, b, n);
    NumberGrows(s, pos + 2, w, n - w);
    assert w + (n - w) == n;
    NumberBound64(s, pos + 2, n, 8);
    SmallEnough64(Number(s, pos + 2, n));
  }

  lemma NumberBound64(s: seq<u8>, pos: nat, n: nat, m: nat)
    requires n <= m == 8 && pos + n <= |s|
    ensures Number(s, pos, n) < TWO64
  {
    NumberBound(s, pos, n);
    Pow2Mono(8 * n, 8 * m);
    Pow2Constants();
  }

  lemma SmallEnough64(size: nat)
    requires size < TWO64
    ensures size % TWO64 == size
  {}

  lemma Announced(b: nat)
    requires 2 <= b <= 3
    ensures b + 1 < Pow2(b) <= 8
  {
    assert Pow2(2) == 4 && Pow2(3) == 8;
  }

  lemma {:induction false} NumberBound(s: seq<u8>, pos: nat, n: nat)
    requires pos + n <= |s|
    ensures Number(s, pos, n) < Pow2(8 * n)
  {
    if n > 0 {
      NumberBound(s, pos, n - 1);
      Pow2Byte(8 * (n - 1));
    }
  }

  // ----- The writer's layout -----

  const MAGIC: seq<u8> := [0x62, 0x70, 0x6c, 0x69, 0x73, 0x74, 0x30, 0x30]

  function ItemBytes(id: u8, bytes: seq<u8>): seq<u8>
    requires id % 16 == 0
  {
    Head(id, |bytes|) + bytes
  }

  function ValueId(v: Value): (id: u8)
    ensures id % 16 == 0 && id != DICTIONARY
  {
    if v.Blob? then DATA else STRING
  }

  /** The bytes of a value that is not empty. */
  function Content(v: Value): seq<u8> { if v.Empty? then [] else v.bytes }

  function PairBytes(e: Entry): seq<u8> { ItemBytes(STRING, e.key) + ItemBytes(ValueId(e.value), Content(e.value)) }

  /** Keys and values in turn. */
  function Body(items: seq<Entry>): seq<u8> {
    if items == [] then [] else Body(items[..|items| - 1]) + PairBytes(items[|items| - 1])
  }

  /** The indexes of the keys and values in the table of offsets, one byte each. */
  function Indexes(first: nat, n: nat): (b: seq<u8>)
    ensures |b| == n
  {
    seq(n, (i: nat) => (first + i) % 0x100)
  }

  function Dictionary(first: nat, n: nat): seq<u8> { Head(DICTIONARY, n) + Indexes(first, 2 * n) }

  /** Where key i starts, when the body starts at base; value i comes right after it. */
  function KeyOffset(base: nat, items: seq<Entry>, i: nat): nat
    requires i <= |items|
  {
    base + |Body(items[..i])|
  }

  function ValueOffset(base: nat, items: seq<Entry>, i: nat): nat
    requires i < |items|
  {
    KeyOffset(base, items, i) + |ItemBytes(STRING, items[i].key)|
  }

  /** The offset of object j of the dictionary: its keys, then its values. */
  function Offset(base: nat, items: seq<Entry>, j: nat): nat
    requires j < 2 * |items|
  {
    if j < |items| then KeyOffset(base, items, j) else ValueOffset(base, items, j - |items|)
  }

  function OffsetBytes(offsets: seq<nat>, w: nat): (b: seq<u8>)
    ensures |b| == |offsets| * w
  {
    if offsets == [] then [] else OffsetBytes(offsets[..|offsets| - 1], w) + BigEndian(offsets[|offsets| - 1], w)
  }

  function OffsetSize(size: nat): nat { Log2(size) / 8 + 1 }

  /** The width of the numbers in the trailer. */
  function Wide(): nat { 8 }

  function TrailerHead(ofsSize: u8): seq<u8> { [0, 0, 0, 0, 0, 0, ofsSize, 1] }

  /** The 32 bytes at the end: widths, the number of offsets, the index of the top offset, where the offsets start. */
  function Trailer(ofsSize: u8, count: nat, topOfs: nat, startOfs: nat): (b: seq<u8>)
    ensures |b| == 32
  {
    TrailerHead(ofsSize) + BigEndian(count, Wide()) + BigEndian(topOfs, Wide()) + BigEndian(startOfs, Wide())
  }

  /** The trailer of toData: the width that the size of the objects needs, and 0 for the top offset. */
  function TrailerFor(size: nat, count: nat): seq<u8> { Trailer(OffsetSize(size) % 0x100, count, 0, size) }

  lemma {:induction false} BodyPart(items: seq<Entry>, i: nat)
    requires i < |items|
    ensures |Body(items[..i])| + |PairBytes(items[i])| <= |Body(items)|
    ensures At(Body(items), |Body(items[..i])|, PairBytes(items[i]))
    decreases |items|
  {
    var n := |items| - 1;
    var front, last := Body(items[..n]), PairBytes(items[n]);
    if i == n {
      AtJoined(front, last, []);
      assert front + last + [] == Body(items);
    } else {
      BodyPart(items[..n], i);
      assert items[..n][..i] == items[..i];
      AtExtended(front, |Body(items[..i])|, PairBytes(items[i]), last);
    }
  }

  lemma AtExtended(s: seq<u8>, pos: nat, part: seq<u8>, more: seq<u8>)
    requires At(s, pos, part)
    ensures At(s + more, pos, part)
  {
    assert (s + more)[pos..pos + |part|] == s[pos..pos + |part|];
  }

  lemma AtShifted(front: seq<u8>, s: seq<u8>, pos: nat, part: seq<u8>)
    requires At(s, pos, part)
    ensures At(front + s, |front| + pos, part)
  {
    assert (front + s)[|front| + pos..|front| + pos + |part|] == s[pos..pos + |part|];
  }

  lemma {:induction false} OffsetBytesPart(offsets: seq<nat>, w: nat, j: nat)
    requires j < |offsets|
    ensures At(OffsetBytes(offsets, w), j * w, BigEndian(offsets[j], w))
    decreases |offsets|
  {
    var n := |offsets| - 1;
    var front, last := OffsetBytes(offsets[..n], w), BigEndian(offsets[n], w);
    if j == n {
      AtJoined(front, last, []);
      assert front + last + [] == OffsetBytes(offsets, w);
    } else {
      OffsetBytesPart(offsets[..n], w, j);
      AtExtended(front, j * w, BigEndian(offsets[j], w), last);
    }
  }

  ghost predicate Writable(items: seq<Entry>) { forall i :: 0 <= i < |items| ==> !items[i].value.Empty? }

  /** The table of offsets of a dictionary: of the dictionary itself, of its keys, of its values. */
  ghost predicate Table(offsets: seq<nat>, first: nat, start: nat, base: nat, items: seq<Entry>) {
    && |offsets| == first + 1 + 2 * |items| && offsets[first] == start
    && forall j :: 0 <= j < 2 * |items| ==> offsets[first + 1 + j] == Offset(base, items, j)
  }

  /** v shifted right by i bytes. */
  function Shifted(v: nat, i: nat): nat { if i == 0 then v else Shifted(v, i - 1) / 0x100 }

  /** The offsets of the first i keys and of their values stand in their places. */
  ghost predicate Filled(offsets: seq<nat>, ofs: nat, base: nat, items: seq<Entry>, i: nat) {
    && i <= |items| && |offsets| == ofs + 2 * |items|
    && (forall j {:trigger KeyOffset(base, items, j)} :: 0 <= j < i ==>
          offsets[ofs + j] == KeyOffset(base, items, j) && offsets[ofs + |items| + j] == ValueOffset(base, items, j))
  }

  lemma FilledNext(offsets: seq<nat>, ofs: nat, base: nat, items: seq<Entry>, i: nat)
    requires Filled(offsets, ofs, base, items, i) && i < |items|
    ensures Filled(offsets[ofs + i := KeyOffset(base, items, i)][ofs + |items| + i := ValueOffset(base, items, i)],
                   ofs, base, items, i + 1)
  {}

  lemma FilledTable(offsets: seq<nat>, first: nat, start: nat, base: nat, items: seq<Entry>)
    requires Filled(offsets, first + 1, base, items, |items|) && offsets[first] == start
    ensures Table(offsets, first, start, base, items)
  {
    forall j | 0 <= j < 2 * |items| ensures offsets[first + 1 + j] == Offset(base, items, j) {
      if j < |items| {
        assert offsets[first + 1 + j] == KeyOffset(base, items, j);
      } else {
        var k := j - |items|;
        assert offsets[first + 1 + |items| + k] == ValueOffset(base, items, k) by {
          assert KeyOffset(base, items, k) >= 0;
        }
      }
    }
  }

  lemma BodyNext(front: seq<u8>, items: seq<Entry>, i: nat)
    requires i < |items|
    ensures front + Body(items[..i]) + ItemBytes(STRING, items[i].key) + ItemBytes(ValueId(items[i].value),
          Content(items[i].value))
         == front + Body(items[..i + 1])
  {
    assert items[..i + 1][..i] == items[..i];
    Regrouped(front, Body(items[..i]), ItemBytes(STRING, items[i].key),
          ItemBytes(ValueId(items[i].value), Content(items[i].value)));
  }

  lemma Regrouped(a: seq<u8>, b: seq<u8>, c: seq<u8>, d: seq<u8>)
    ensures a + b + c + d == a + (b + (c + d))
  {}

  /** What add starts from: the offsets so far, the size of the objects so far, the entries to add. */
  datatype Before = Before(offsets: seq<nat>, size: nat, items: seq<Entry>)

  /** The first i keys and values have their offsets, and the offsets before them are as they were. */
  ghost predicate Placed(b: Before, base: nat, offsets: seq<nat>, i: nat) {
    forall u {:trigger Unfold(u)} :: u == 0 ==>
      b.offsets + [b.size] <= offsets && Filled(offsets, |b.offsets| + 1, base, b.items, i)
  }

  lemma PlacedNext(b: Before, base: nat, offsets: seq<nat>, i: nat, ofs: nat, key: nat, value: nat)
    requires i < |b.items| && ofs == |b.offsets| + 1 && |offsets| == ofs + 2 * |b.items|
    requires key == KeyOffset(base, b.items, i) && value == ValueOffset(base, b.items, i)
    requires Placed(b, base, offsets, i)
    ensures Placed(b, base, offsets[ofs + i := key][ofs + |b.items| + i := value], i + 1)
  {
    assert Unfold(0);
    FilledNext(offsets, ofs, base, b.items, i);
    PrefixKeptTwice(b.offsets + [b.size], offsets, ofs + i, key, ofs + |b.items| + i, value);
  }

  lemma PrefixKeptTwice(prefix: seq<nat>, s: seq<nat>, k: nat, v: nat, j: nat, w: nat)
    requires prefix <= s && |prefix| <= k < |s| && |prefix| <= j < |s|
    ensures prefix <= s[k := v][j := w]
  {
    PrefixKept(prefix, s, k, v);
    PrefixKept(prefix, s[k := v], j, w);
  }

  lemma PrefixKept(prefix: seq<nat>, s: seq<nat>, k: nat, v: nat)
    requires prefix <= s && |prefix| <= k < |s|
    ensures prefix <= s[k := v]
  {}

  /** After i entries: front is what stood before the first of them. */
  ghost predicate Adding(b: Before, front: seq<u8>, objects: seq<u8>, offsets: seq<nat>, i: nat) {
    forall u {:trigger Unfold(u)} :: u == 0 ==>
      i <= |b.items| && objects == front + Body(b.items[..i]) && Placed(b, |front|, offsets, i)
  }

  lemma AddingStarts(b: Before, front: seq<u8>, offsets: seq<nat>)
    requires b.offsets + [b.size] <= offsets && |offsets| == |b.offsets| + 1 + 2 * |b.items|
    ensures Adding(b, front, front, offsets, 0)
  {
    assert front == front + Body(b.items[..0]);
    assert Filled(offsets, |b.offsets| + 1, |front|, b.items, 0);
    assert Placed(b, |front|, offsets, 0);
  }

  lemma AddingNext(b: Before, front: seq<u8>, objects: seq<u8>, offsets: seq<nat>, i: nat, ofs: nat)
    requires i < |b.items| && ofs == |b.offsets| + 1 && |offsets| == ofs + 2 * |b.items|
    requires Adding(b, front, objects, offsets, i)
    ensures var e := b.items[i];
            Adding(b, front, objects + ItemBytes(STRING, e.key) + ItemBytes(ValueId(e.value), Content(e.value)),
                   offsets[ofs + i := |objects|][ofs + |b.items| + i := |objects| + |ItemBytes(STRING, e.key)|], i + 1)
  {
    AddingIs(b, front, objects, offsets, i);
    var base, key, value := |front|, |objects|, |objects| + |ItemBytes(STRING, b.items[i].key)|;
    PlacedNext(b, base, offsets, i, ofs, key, value);
    BodyNext(front, b.items, i);
    AddingBy(b, front, front + Body(b.items[..i + 1]),
             offsets[ofs + i := key][ofs + |b.items| + i := value], i + 1);
  }

  lemma AddingIs(b: Before, front: seq<u8>, objects: seq<u8>, offsets: seq<nat>, i: nat)
    requires Adding(b, front, objects, offsets, i)
    ensures i <= |b.items| && objects == front + Body(b.items[..i]) && Placed(b, |front|, offsets, i)
    ensures |objects| == KeyOffset(|front|, b.items, i)
  {
    assert Unfold(0);
  }

  lemma AddingBy(b: Before, front: seq<u8>, objects: seq<u8>, offsets: seq<nat>, i: nat)
    requires i <= |b.items| && objects == front + Body(b.items[..i]) && Placed(b, |front|, offsets, i)
    ensures Adding(b, front, objects, offsets, i)
  {}

  lemma AddingEnds(b: Before, front: seq<u8>, objects: seq<u8>, offsets: seq<nat>)
    requires Adding(b, front, objects, offsets, |b.items|)
    ensures objects == front + Body(b.items) && b.offsets <= offsets
    ensures Table(offsets, |b.offsets|, b.size, |front|, b.items)
  {
    AddingIs(b, front, objects, offsets, |b.items|);
    assert Unfold(0);
    assert b.items[..|b.items|] == b.items;
    assert offsets[|b.offsets|] == (b.offsets + [b.size])[|b.offsets|];
    FilledTable(offsets, |b.offsets|, b.size, |front|, b.items);
  }

  /** The lengths fit size_t, and no value is empty. */
  ghost predicate Sized(items: seq<Entry>) {
    && 2 * |items| < TWO64
    && forall i {:trigger items[i]} :: 0 <= i < |items| ==>
         !items[i].value.Empty? && |items[i].key| < TWO64 && |items[i].value.bytes| < TWO64
  }

  class Writer {
    var objects: seq<u8>
    var ofsIndex: seq<nat>

    constructor ()
      ensures objects == MAGIC && ofsIndex == []
    {
      objects := MAGIC;
      ofsIndex := [];
    }

    method PushBigEndian(v: nat, w: nat)
      modifies this`objects
      ensures objects == old(objects) + BigEndian(v, w)
    {
      var i := w;
      while i > 0
        invariant 0 <= i <= w && objects == old(objects) + BigEndian(Shifted(v, i), w - i)
      {
        i := i - 1;
        objects := objects + [Shifted(v, i) % 0x100];
      }
    }

    /** insertObject. */
    method InsertObject(id: u8, size: nat)
      requires id % 16 == 0 && size < TWO64
      modifies this`objects
      ensures objects == old(objects) + Head(id, size)
    {
      if size < 15 {
        objects := objects + [id + size];
      } else {
        objects := objects + [id + 15];
        var blen := Log2(size) / 8;
        objects := objects + [0x10 + blen % 16];
        PushBigEndian(size, blen + 1);
      }
    }

    method InsertItem(id: u8, bytes: seq<u8>)
      requires id % 16 == 0 && |bytes| < TWO64
      modifies this`objects
      ensures objects == old(objects) + ItemBytes(id, bytes)
    {
      InsertObject(id, |bytes|);
      objects := objects + bytes;
    }

    /** The indexes of the dictionary's objects, with a placeholder for each offset. */
    method Reserve(n: nat)
      modifies this
      ensures objects == old(objects) + Indexes(|old(ofsIndex)|, n)
      ensures |ofsIndex| == |old(ofsIndex)| + n && old(ofsIndex) <= ofsIndex
    {
      var i := 0;
      while i < n
        invariant 0 <= i <= n && objects == old(objects) + Indexes(|old(ofsIndex)|, i)
        invariant |ofsIndex| == |old(ofsIndex)| + i && old(ofsIndex) <= ofsIndex
      {
        assert Indexes(|old(ofsIndex)|, i + 1) == Indexes(|old(ofsIndex)|, i) + [|ofsIndex| % 0x100];
        objects := objects + [|ofsIndex| % 0x100];
        ofsIndex := ofsIndex + [0];
        i := i + 1;
      }
    }

    /** A key and its value, with their offsets. */
    method AddPair(e: Entry, keyIndex: nat, valueIndex: nat)
      requires !e.value.Empty? && |e.key| < TWO64 && |e.value.bytes| < TWO64
      requires keyIndex < valueIndex < |ofsIndex|
      modifies this
      ensures objects == old(objects) + ItemBytes(STRING, e.key) + ItemBytes(ValueId(e.value), Content(e.value))
      ensures ofsIndex == old(ofsIndex)[keyIndex := |old(objects)|]
                                       [valueIndex := |old(objects)| + |ItemBytes(STRING, e.key)|]
    {
      ofsIndex := ofsIndex[keyIndex := |objects|];
      InsertItem(STRING, e.key);
      ofsIndex := ofsIndex[valueIndex := |objects|];
      InsertItem(ValueId(e.value), e.value.bytes);
    }

    /** The dictionary object, with a place for the offset of each of its keys and values. */
    method OpenDictionary(n: nat)
      requires 2 * n < TWO64
      modifies this
      ensures objects == old(objects) + Dictionary(|old(ofsIndex)| + 1, n)
      ensures |ofsIndex| == |old(ofsIndex)| + 1 + 2 * n && old(ofsIndex) + [|old(objects)|] <= ofsIndex
    {
      ofsIndex := ofsIndex + [|objects|];
      InsertObject(DICTIONARY, n);
      Reserve(2 * n);
    }

    /** add: the dictionary object, then each key and value, whose offsets go into the places reserved for them. */
    method Add(items: seq<Entry>)
      requires Sized(items)
      modifies this
      ensures objects == old(objects) + Dictionary(|old(ofsIndex)| + 1, |items|) + Body(items)
      ensures old(ofsIndex) <= ofsIndex
      ensures Table(ofsIndex, |old(ofsIndex)|, |old(objects)|,
                    |old(objects)| + |Dictionary(|old(ofsIndex)| + 1, |items|)|, items)
    {
      ghost var before := Before(ofsIndex, |objects|, items);
      var count, ofs := |items|, |ofsIndex| + 1;
      OpenDictionary(count);
      ghost var front := objects;
      AddingStarts(before, front, ofsIndex);
      var i := 0;
      while i < count
        invariant 0 <= i <= count && ofs == |old(ofsIndex)| + 1 && |ofsIndex| == ofs + 2 * count
        invariant Adding(before, front, objects, ofsIndex, i)
      {
        AddingNext(before, front, objects, ofsIndex, i, ofs);
        AddPair(items[i], ofs + i, ofs + count + i);
        i := i + 1;
      }
      AddingEnds(before, front, objects, ofsIndex);
    }

    /** toData: the objects, the table with offsets as wide as the size of the objects needs, and the trailer. */
    method ToData() returns (data: seq<u8>)
      requires 0 < |objects| < TWO64 && |ofsIndex| < TWO64
      ensures data == objects + OffsetBytes(ofsIndex, OffsetSize(|objects|))
                    + TrailerFor(|objects|, |ofsIndex|)
    {
      data := objects;
      var ofsSize := Log2(|objects|) / 8 + 1;
      var k := 0;
      while k < |ofsIndex|
        invariant 0 <= k <= |ofsIndex| && data == objects + OffsetBytes(ofsIndex[..k], ofsSize)
      {
        var item := ofsIndex[k];
        assert ofsIndex[..k + 1][..k] == ofsIndex[..k];
        data := data + BigEndian(item, ofsSize);
        k := k + 1;
      }
      assert ofsIndex[..k] == ofsIndex;
      data := data + TrailerFor(|objects|, |ofsIndex|);
    }
  }

  // ----- The map of entries -----

  /** std::string's order: by bytes, a prefix first. */
  predicate Less(a: seq<u8>, b: seq<u8>) {
    b != [] && (a == [] || a[0] < b[0] || (a[0] == b[0] && Less(a[1..], b[1..])))
  }

  lemma {:induction false} LessOrder(a: seq<u8>, b: seq<u8>)
    ensures !(Less(a, b) && Less(b, a)) && (Less(a, b) ==> a != b)
    ensures a == b || Less(a, b) || Less(b, a)
  {
    if a != [] && b != [] && a[0] == b[0] {
      LessOrder(a[1..], b[1..]);
      assert a == [a[0]] + a[1..] && b == [b[0]] + b[1..];
    }
  }

  lemma {:induction false} LessTransitive(a: seq<u8>, b: seq<u8>, c: seq<u8>)
    requires Less(a, b) && Less(b, c)
    ensures Less(a, c)
  {
    if a != [] && a[0] == b[0] && b[0] == c[0] { LessTransitive(a[1..], b[1..], c[1..]); }
  }

  ghost predicate Ascending(items: seq<Entry>) {
    forall i, j :: 0 <= i < j < |items| ==> Less(items[i].key, items[j].key)
  }

  ghost predicate DistinctKeys(items: seq<Entry>) {
    forall i, j :: 0 <= i < j < |items| ==> items[i].key != items[j].key
  }

  /** std::map::insert: the entries stay sorted by key; a key that is there stays as it is. */
  function Insert(entries: seq<Entry>, e: Entry): seq<Entry> {
    if entries == [] then [e]
    else if e.key == entries[0].key then entries
    else if Less(e.key, entries[0].key) then [e] + entries
    else [entries[0]] + Insert(entries[1..], e)
  }

  lemma {:induction false} InsertKeeps(entries: seq<Entry>, e: Entry)
    requires Ascending(entries) && forall i :: 0 <= i < |entries| ==> entries[i].key != e.key
    ensures Ascending(Insert(entries, e)) && |Insert(entries, e)| == |entries| + 1
    ensures forall x :: x in Insert(entries, e) <==> x == e || x in entries
    decreases |entries|
  {
    if entries != [] {
      LessOrder(e.key, entries[0].key);
      var rest := entries[1..];
      if Less(e.key, entries[0].key) {
        forall j | 0 < j <= |entries| ensures Less(e.key, ([e] + entries)[j].key) {
          if j > 1 { LessTransitive(e.key, entries[0].key, entries[j - 1].key); }
        }
      } else {
        InsertKeeps(rest, e);
        var r := Insert(rest, e);
        forall j | 0 <= j < |r| ensures Less(entries[0].key, r[j].key) {
          assert r[j] in r;
          if r[j] != e { var k :| 0 <= k < |rest| && rest[k] == r[j]; assert rest[k] == entries[k + 1]; }
        }
        assert entries == [entries[0]] + rest;
      }
    }
  }

  lemma {:induction false} InsertLast(entries: seq<Entry>, e: Entry)
    requires forall i :: 0 <= i < |entries| ==> Less(entries[i].key, e.key)
    ensures Insert(entries, e) == entries + [e]
  {
    if entries != [] {
      LessOrder(entries[0].key, e.key);
      InsertLast(entries[1..], e);
      assert entries == [entries[0]] + entries[1..];
    }
  }

  /** The keys as init inserts them, without values. */
  function Keys(items: seq<Entry>): seq<Entry> {
    if items == [] then [] else Insert(Keys(items[..|items| - 1]), Entry(items[|items| - 1].key, Empty))
  }

  ghost predicate HasKey(items: seq<Entry>, key: seq<u8>) { exists i :: 0 <= i < |items| && items[i].key == key }

  lemma HasKeyLast(items: seq<Entry>, key: seq<u8>)
    requires items != []
    ensures HasKey(items, key) <==> HasKey(items[..|items| - 1], key) || key == items[|items| - 1].key
  {
    var n := |items| - 1;
    if HasKey(items[..n], key) { var i :| 0 <= i < n && items[..n][i].key == key; assert items[i].key == key; }
    if key == items[n].key { assert items[n].key == key; }
    if HasKey(items, key) {
      var i :| 0 <= i < |items| && items[i].key == key;
      if i < n { assert items[..n][i].key == key; }
    }
  }

  lemma {:induction false} KeysSorted(items: seq<Entry>)
    requires DistinctKeys(items)
    ensures Ascending(Keys(items)) && |Keys(items)| == |items|
    ensures forall x :: x in Keys(items) ==> HasKey(items, x.key)
    decreases |items|
  {
    if items != [] {
      var n := |items| - 1;
      var front, e := items[..n], Entry(items[n].key, Empty);
      var keys := Keys(front);
      KeysSorted(front);
      forall i | 0 <= i < |keys| ensures keys[i].key != e.key {
        assert keys[i] in keys;
        var k :| 0 <= k < n && front[k].key == keys[i].key;
        assert items[k].key != items[n].key;
      }
      InsertKeeps(keys, e);
      forall x | x in Keys(items) ensures HasKey(items, x.key) { HasKeyLast(items, x.key); }
    }
  }

  lemma {:induction false} KeysInOrder(items: seq<Entry>)
    requires Ascending(items)
    ensures |Keys(items)| == |items|
    ensures forall i :: 0 <= i < |items| ==> Keys(items)[i] == Entry(items[i].key, Empty)
    decreases |items|
  {
    if items != [] {
      KeysInOrder(items[..|items| - 1]);
      InsertLast(Keys(items[..|items| - 1]), Entry(items[|items| - 1].key, Empty));
    }
  }

  /** The sorted keys with the values in the order in which they were written. */
  function ReadBack(items: seq<Entry>): (r: seq<Entry>)
    ensures |r| == |Keys(items)|
  {
    var keys := Keys(items);
    seq(|keys|, (i: nat) requires i < |keys| => Entry(keys[i].key, if i < |items| then items[i].value else Empty))
  }

  lemma ReadBackAscending(items: seq<Entry>)
    requires Ascending(items)
    ensures ReadBack(items) == items
  {
    KeysInOrder(items);
  }

  lemma SameKeysAscending(keys: seq<Entry>, items: seq<Entry>)
    requires Ascending(keys) && |keys| == |items| && forall j :: 0 <= j < |items| ==> keys[j].key == items[j].key
    ensures Ascending(items)
  {
    forall i, j | 0 <= i < j < |items| ensures Less(items[i].key, items[j].key) {
      assert keys[i].key == items[i].key && keys[j].key == items[j].key;
    }
  }

  ghost predicate DistinctValues(items: seq<Entry>) {
    forall i, j :: 0 <= i < |items| && 0 <= j < |items| && items[i].value == items[j].value ==> i == j
  }

  lemma KeyByValue(items: seq<Entry>, keys: seq<Entry>, r: seq<Entry>, j: nat)
    requires DistinctValues(items) && |r| == |keys| == |items| && j < |items| && r[j] in items
    requires r[j] == Entry(keys[j].key, items[j].value)
    ensures keys[j].key == items[j].key
  {
    var i :| 0 <= i < |items| && items[i] == r[j];
    assert i == j;
  }

  lemma ReadBackExactly(items: seq<Entry>)
    requires DistinctKeys(items) && DistinctValues(items)
    ensures (forall x :: x in ReadBack(items) ==> x in items) <==> Ascending(items)
  {
    if Ascending(items) { ReadBackAscending(items); }
    var r, keys := ReadBack(items), Keys(items);
    KeysSorted(items);
    if forall x :: x in r ==> x in items {
      forall j | 0 <= j < |items| ensures keys[j].key == items[j].key {
        assert r[j] in r;
        KeyByValue(items, keys, r, j);
      }
      SameKeysAscending(keys, items);
    }
  }

  // ----- The reader -----

  /** The parts init copies: the objects, the bytes of the table of offsets, and the two trailer fields it uses. */
  datatype Archive = Archive(objects: seq<u8>, table: seq<u8>, ofsSize: nat, topOfs: nat)

  /** The split by the trailer; None when it points outside the data. */
  function Split(data: seq<u8>): Option<Archive> {
    if |data| < 32 then None
    else
      var end := |data| - 32;
      var startOfs := Number(data, end + 24, Wide());
      if startOfs > end then None
      else Some(Archive(data[..startOfs], data[startOfs..end], data[end + 6], Number(data, end + 16, Wide())))
  }

  /** Whether the index at pos leads to an object inside the bytes there are; the reader itself does not look. */
  predicate CanLocate(a: Archive, pos: nat) {
    pos < |a.objects| && a.objects[pos] * a.ofsSize + a.topOfs + a.ofsSize <= |a.table|
  }

  function Locate(a: Archive, pos: nat): nat
    requires CanLocate(a, pos)
  {
    Number(a.table, a.objects[pos] * a.ofsSize + a.topOfs, a.ofsSize) % TWO64
  }

  predicate CanItem(objects: seq<u8>, ofs: nat) {
    CanCount(objects, ofs) && ReadCountAt(objects, ofs).next + ReadCountAt(objects, ofs).size <= |objects|
  }

  datatype Item = Item(id: u8, bytes: seq<u8>)

  /** The object at ofs. */
  function ItemAt(objects: seq<u8>, ofs: nat): Item
    requires CanItem(objects, ofs)
  {
    var c := ReadCountAt(objects, ofs);
    Item(objects[ofs] / 16 * 16, objects[c.next..c.next + c.size])
  }

  predicate CanRead(a: Archive, pos: nat) { CanLocate(a, pos) && CanItem(a.objects, Locate(a, pos)) }

  function ReadItem(a: Archive, pos: nat): Item
    requires CanRead(a, pos)
  {
    ItemAt(a.objects, Locate(a, pos))
  }

  function ValueOf(i: Item): Value {
    if i.id == STRING then Text(i.bytes) else if i.id == DATA then Blob(i.bytes) else Empty
  }

  /** The loop over readKey. None is a read outside the data, here and below. */
  function KeysFrom(a: Archive, pos: nat, count: nat, entries: seq<Entry>): Option<seq<Entry>>
    decreases count
  {
    if count == 0 then Some(entries)
    else if !CanRead(a, pos) then None
    else KeysFrom(a, pos + 1, count - 1, Insert(entries, Entry(ReadItem(a, pos).bytes, Empty)))
  }

  /** The loop over readValue, in the order of the map, for the entries from i on. */
  function ValuesFrom(a: Archive, pos: nat, entries: seq<Entry>, i: nat): Option<seq<Entry>>
    requires i <= |entries|
    decreases |entries| - i
  {
    if i == |entries| then Some(entries)
    else if !CanRead(a, pos) then None
    else ValuesFrom(a, pos + 1, entries[i := Entry(entries[i].key, ValueOf(ReadItem(a, pos)))], i + 1)
  }

  predicate IsDictionary(id: u8) { id / 16 == 13 }

  /** A dictionary of count entries whose indexes start at pos: first all keys, then a value for each entry of
      the map. */
  function ReadDictionary(a: Archive, pos: nat, count: nat, entries: seq<Entry>): Option<seq<Entry>> {
    var keys := KeysFrom(a, pos, count, entries);
    if keys.None? then None else ValuesFrom(a, pos + count, keys.value, 0)
  }

  /** init's loop over the objects from pos on: dictionaries are read, other objects skipped. */
  function Parse(a: Archive, pos: nat, entries: seq<Entry>): Option<seq<Entry>>
    decreases |a.objects| - pos
  {
    if pos >= |a.objects| then Some(entries)
    else if !CanCount(a.objects, pos) then None
    else
      var c := ReadCountAt(a.objects, pos);
      if !IsDictionary(a.objects[pos]) then Parse(a, c.next + c.size, entries)
      else
        var r := ReadDictionary(a, c.next, c.size, entries);
        if r.None? then None else Parse(a, c.next + c.size + |r.value|, r.value)
  }

  /** init: the entries a reader of the data ends with. The first object comes after the magic bytes. */
  function Init(data: seq<u8>): Option<seq<Entry>> {
    var a := Split(data);
    if a.None? then None else Parse(a.value, |MAGIC|, [])
  }

  // ----- What the writer writes for one add -----

  /** The dictionaries the reader is for: indexes and sizes fit. */
  ghost predicate Plain(items: seq<Entry>) {
    && |items| <= 127 && Writable(items)
    && forall i {:trigger items[i]} :: 0 <= i < |items| ==>
         |items[i].key| < 0x1_0000 && |Content(items[i].value)| < 0x1_0000
  }

  function BodyStart(n: nat): nat { 8 + |Dictionary(1, n)| }

  function Objects(items: seq<Entry>): seq<u8> { MAGIC + Dictionary(1, |items|) + Body(items) }

  function Offsets(items: seq<Entry>): (o: seq<nat>)
    ensures |o| == 2 * |items| + 1
  {
    [8] + seq(2 * |items|, (j: nat) requires j < 2 * |items| => Offset(BodyStart(|items|), items, j))
  }

  /** What toData returns after one add. */
  function Data(items: seq<Entry>): seq<u8> {
    Objects(items) + OffsetBytes(Offsets(items), OffsetSize(|Objects(items)|))
      + TrailerFor(|Objects(items)|, |Offsets(items)|)
  }

  lemma TableIs(offsets: seq<nat>, items: seq<Entry>)
    requires Table(offsets, 0, 8, BodyStart(|items|), items)
    ensures offsets == Offsets(items)
  {
    var o := Offsets(items);
    forall k | 0 <= k < |o| ensures offsets[k] == o[k] {
      if k > 0 { assert offsets[0 + 1 + (k - 1)] == Offset(BodyStart(|items|), items, k - 1); }
    }
  }

  lemma HeadShort(id: u8, size: nat)
    requires id % 16 == 0 && size < 0x1_0000
    ensures 1 <= |Head(id, size)| <= 4
  {
    if size >= 15 { ShortLog(size, 16); }
  }

  lemma {:induction false} BodyShort(items: seq<Entry>)
    requires Plain(items)
    ensures |Body(items)| <= |items| * 0x3_0000
    decreases |items|
  {
    if items != [] {
      var e := items[|items| - 1];
      BodyShort(items[..|items| - 1]);
      HeadShort(STRING, |e.key|);
      HeadShort(ValueId(e.value), |Content(e.value)|);
    }
  }

  lemma ObjectsShort(items: seq<Entry>)
    requires Plain(items)
    ensures 9 <= |Objects(items)| < TWO32 && 1 <= OffsetSize(|Objects(items)|) <= 4
  {
    BodyShort(items);
    HeadShort(DICTIONARY, |items|);
    Pow2Of16(16);
    Log2Below(|Objects(items)|, 32);
  }

  /** The three parts of data that ends in a trailer. */
  lemma SplitParts(objects: seq<u8>, table: seq<u8>, ofsSize: u8, count: nat)
    requires |objects| < TWO32
    ensures Split(objects + table + Trailer(ofsSize, count, 0, |objects|)) == Some(Archive(objects, table, ofsSize, 0))
  {
    var data := objects + table + Trailer(ofsSize, count, 0, |objects|);
    var end := |objects| + |table|;
    TrailerReads(data, end, ofsSize, count, |objects|, Wide());
    assert data[..|objects|] == objects && data[|objects|..end] == table;
  }

  lemma TrailerReads(data: seq<u8>, end: nat, ofsSize: u8, count: nat, startOfs: nat, w: nat)
    requires At(data, end, Trailer(ofsSize, count, 0, startOfs)) && startOfs < TWO32 && w == Wide()
    ensures end + 32 <= |data| && data[end + 6] == ofsSize
    ensures Number(data, end + 16, w) == 0 && Number(data, end + 24, w) == startOfs
  {
    var a, b, c := TrailerHead(ofsSize) + BigEndian(count, w), BigEndian(0, w), BigEndian(startOfs, w);
    AtParts(data, end, a + b, c);
    AtParts(data, end, a, b);
    AtParts(data, end, TrailerHead(ofsSize), BigEndian(count, w));
    assert data[end..end + 8][6] == TrailerHead(ofsSize)[6];
    WideHolds(w, 32);
    NumberBack(data, end + 16, 0, w);
    NumberBack(data, end + 24, startOfs, w);
  }

  lemma WideHolds(w: nat, n: nat)
    requires w == Wide() && n == 32
    ensures Pow2(8 * w) >= TWO32 && Pow2(8 * w) >= 1
  {
    Pow2Mono(n, 8 * w);
    Pow2Constants();
  }

  function ArchiveOf(items: seq<Entry>): Archive {
    var w := OffsetSize(|Objects(items)|);
    Archive(Objects(items), OffsetBytes(Offsets(items), w), w, 0)
  }

  lemma TrailerIs(size: nat, count: nat, w: nat)
    requires w == OffsetSize(size) && w < 0x100
    ensures TrailerFor(size, count) == Trailer(w, count, 0, size)
  {}

  lemma SplitData(items: seq<Entry>)
    requires Plain(items)
    ensures Split(Data(items)) == Some(ArchiveOf(items))
  {
    var objects, count := Objects(items), |Offsets(items)|;
    var w := OffsetSize(|objects|);
    ObjectsShort(items);
    TrailerIs(|objects|, count, w);
    SplitParts(objects, OffsetBytes(Offsets(items), w), w, count);
  }

  // ----- Reading it back -----

  /** Object j of the dictionary: its keys, then its values. */
  function Part(items: seq<Entry>, j: nat): Item
    requires j < 2 * |items|
  {
    if j < |items| then Item(STRING, items[j].key)
    else Item(ValueId(items[j - |items|].value), Content(items[j - |items|].value))
  }

  /** An object that stands at ofs is read there. */
  lemma ItemBack(s: seq<u8>, ofs: nat, id: u8, bytes: seq<u8>)
    requires id % 16 == 0 && |bytes| < 0x1_0000 && At(s, ofs, ItemBytes(id, bytes))
    ensures CanItem(s, ofs) && ItemAt(s, ofs) == Item(id, bytes)
    ensures ReadCountAt(s, ofs).next + |bytes| == ofs + |ItemBytes(id, bytes)|
    ensures s[ofs] / 16 == id / 16
  {
    AtParts(s, ofs, Head(id, |bytes|), bytes);
    CountBack(s, ofs, id, |bytes|);
    CountedItem(s, ofs, id, bytes, ofs + |Head(id, |bytes|)|);
  }

  lemma CountedItem(s: seq<u8>, ofs: nat, id: u8, bytes: seq<u8>, next: nat)
    requires id % 16 == 0 && CanCount(s, ofs) && ReadCountAt(s, ofs) == Count(|bytes|, next)
    requires At(s, next, bytes) && s[ofs] / 16 == id / 16
    ensures CanItem(s, ofs) && ItemAt(s, ofs) == Item(id, bytes)
  {}

  lemma PairAfter(front: seq<u8>, body: seq<u8>, pos: nat, x: seq<u8>, y: seq<u8>)
    requires At(body, pos, x + y)
    ensures At(front + body, |front| + pos, x) && At(front + body, |front| + pos + |x|, y)
  {
    AtShifted(front, body, pos, x + y);
    AtParts(front + body, |front| + pos, x, y);
  }

  lemma PairInObjects(items: seq<Entry>, i: nat)
    requires i < |items|
    ensures var e, k := items[i], KeyOffset(BodyStart(|items|), items, i);
            && At(Objects(items), k, ItemBytes(STRING, e.key))
            && At(Objects(items), k + |ItemBytes(STRING, e.key)|, ItemBytes(ValueId(e.value), Content(e.value)))
  {
    var e := items[i];
    BodyPart(items, i);
    PairAfter(MAGIC + Dictionary(1, |items|), Body(items), |Body(items[..i])|,
              ItemBytes(STRING, e.key), ItemBytes(ValueId(e.value), Content(e.value)));
  }

  /** Object j stands at its offset. */
  lemma PartInObjects(items: seq<Entry>, j: nat)
    requires j < 2 * |items|
    ensures Part(items, j).id % 16 == 0
    ensures At(Objects(items), Offset(BodyStart(|items|), items, j), ItemBytes(Part(items, j).id, Part(items, j).bytes))
  {
    PairInObjects(items, if j < |items| then j else j - |items|);
  }

  lemma MiddleIndex(a: seq<u8>, b: seq<u8>, c: seq<u8>, d: seq<u8>, j: nat, pos: nat)
    requires j < |c| && pos == |a| + |b| + j
    ensures pos < |a + (b + c) + d| && (a + (b + c) + d)[pos] == c[j]
  {}

  lemma IndexValue(n: nat, j: nat)
    requires n <= 127 && j < 2 * n
    ensures Indexes(1, 2 * n)[j] == 1 + j
  {}

  /** The index of object j stands among the dictionary's indexes. */
  lemma IndexInObjects(items: seq<Entry>, j: nat, pos: nat)
    requires |items| <= 127 && j < 2 * |items| && pos == BodyStart(|items|) - 2 * |items| + j
    ensures pos < |Objects(items)| && Objects(items)[pos] == 1 + j
  {
    var n := |items|;
    IndexValue(n, j);
    MiddleIndex(MAGIC, Head(DICTIONARY, n), Indexes(1, 2 * n), Body(items), j, pos);
  }

  lemma OffsetFits(items: seq<Entry>, j: nat)
    requires j < 2 * |items|
    ensures Offset(BodyStart(|items|), items, j) < |Objects(items)|
  {
    PairInObjects(items, if j < |items| then j else j - |items|);
  }

  /** Row k of the table of offsets. */
  lemma RowBack(offsets: seq<nat>, w: nat, k: nat, row: nat, size: nat)
    requires k < |offsets| && offsets[k] < size < TWO32 && w == OffsetSize(size) && row == k * w
    ensures row + w <= |OffsetBytes(offsets, w)| && Number(OffsetBytes(offsets, w), row, w) == offsets[k]
  {
    OffsetBytesPart(offsets, w, k);
    SizeFits(size);
    NumberBack(OffsetBytes(offsets, w), row, offsets[k], w);
  }

  lemma LocateBack(items: seq<Entry>, j: nat, pos: nat)
    requires Plain(items) && j < 2 * |items| && pos == BodyStart(|items|) - 2 * |items| + j
    ensures CanLocate(ArchiveOf(items), pos)
    ensures Locate(ArchiveOf(items), pos) == Offset(BodyStart(|items|), items, j)
  {
    var size := |Objects(items)|;
    ObjectsShort(items);
    IndexInObjects(items, j, pos);
    OffsetFits(items, j);
    RowBack(Offsets(items), OffsetSize(size), 1 + j, (1 + j) * OffsetSize(size), size);
    LocateAt(ArchiveOf(items), pos, 1 + j, Offset(BodyStart(|items|), items, j));
  }

  lemma LocateAt(a: Archive, pos: nat, k: u8, ofs: nat)
    requires pos < |a.objects| && a.objects[pos] == k && a.topOfs == 0 && ofs < TWO32
    requires k * a.ofsSize + a.ofsSize <= |a.table| && Number(a.table, k * a.ofsSize, a.ofsSize) == ofs
    ensures CanLocate(a, pos) && Locate(a, pos) == ofs
  {
    SmallEnough(ofs);
  }

  /** What readKey and readValue find for object j. */
  lemma PartRead(items: seq<Entry>, j: nat, pos: nat)
    requires Plain(items) && j < 2 * |items| && pos == BodyStart(|items|) - 2 * |items| + j
    ensures CanRead(ArchiveOf(items), pos) && ReadItem(ArchiveOf(items), pos) == Part(items, j)
  {
    LocateBack(items, j, pos);
    PartInObjects(items, j);
    ItemBack(Objects(items), Offset(BodyStart(|items|), items, j), Part(items, j).id, Part(items, j).bytes);
  }

  ghost predicate PartAt(a: Archive, pos: nat, item: Item) {
    forall u {:trigger Unfold(u)} :: u == 0 ==> CanRead(a, pos) && ReadItem(a, pos) == item
  }

  /** The indexes from start on lead to the parts of the dictionary. */
  ghost predicate Serves(a: Archive, start: nat, items: seq<Entry>) {
    forall j {:trigger Part(items, j)} :: 0 <= j < 2 * |items| ==> PartAt(a, start + j, Part(items, j))
  }

  lemma PartIsAt(a: Archive, items: seq<Entry>, j: nat, pos: nat)
    requires Plain(items) && a == ArchiveOf(items) && j < 2 * |items| && pos == BodyStart(|items|) - 2 * |items| + j
    ensures PartAt(a, pos, Part(items, j))
  {
    PartRead(items, j, pos);
  }

  lemma ArchiveServes(a: Archive, items: seq<Entry>, start: nat)
    requires Plain(items) && a == ArchiveOf(items) && start == BodyStart(|items|) - 2 * |items|
    ensures Serves(a, start, items)
  {
    forall j {:trigger Part(items, j)} | 0 <= j < 2 * |items| ensures PartAt(a, start + j, Part(items, j)) {
      var pos := start + j;
      PartIsAt(a, items, j, pos);
    }
  }

  /** The loop over readKey gives r. */
  ghost predicate KeysGive(a: Archive, pos: nat, count: nat, entries: seq<Entry>, r: seq<Entry>) {
    forall u {:trigger Unfold(u)} :: u == 0 ==> KeysFrom(a, pos, count, entries) == Some(r)
  }

  lemma KeysStep(a: Archive, pos: nat, count: nat, entries: seq<Entry>, item: Item, r: seq<Entry>)
    requires PartAt(a, pos, item) && KeysGive(a, pos + 1, count, Insert(entries, Entry(item.bytes, Empty)), r)
    ensures KeysGive(a, pos, count + 1, entries, r)
  {
    assert Unfold(0);
  }

  lemma {:induction false} KeysRead(a: Archive, start: nat, items: seq<Entry>, i: nat, pos: nat, keys: seq<Entry>)
    requires Serves(a, start, items) && i <= |items| && pos == start + i && keys == Keys(items[..i])
    ensures KeysGive(a, pos, |items| - i, keys, Keys(items))
    decreases |items| - i
  {
    if i == |items| {
      assert items[..i] == items;
      assert KeysFrom(a, pos, 0, keys) == Some(keys);
    } else {
      var part := Part(items, i);
      KeysNext(items, i);
      KeysRead(a, start, items, i + 1, pos + 1, Insert(keys, Entry(part.bytes, Empty)));
      KeysStep(a, pos, |items| - i - 1, keys, part, Keys(items));
    }
  }

  lemma KeysNext(items: seq<Entry>, i: nat)
    requires i < |items|
    ensures Keys(items[..i + 1]) == Insert(Keys(items[..i]), Entry(items[i].key, Empty))
  {
    assert items[..i + 1][..i] == items[..i];
  }

  /** r is keys with the values of items, in turn. */
  ghost predicate Paired(items: seq<Entry>, keys: seq<Entry>, r: seq<Entry>) {
    && |keys| == |r| == |items|
    && forall i {:trigger items[i]} :: 0 <= i < |items| ==> r[i] == Entry(keys[i].key, items[i].value)
  }

  /** The map while the values are read: the first i have theirs. */
  ghost predicate Partly(entries: seq<Entry>, keys: seq<Entry>, r: seq<Entry>, i: nat) {
    && |entries| == |keys| == |r|
    && forall k :: 0 <= k < |r| ==> entries[k] == if k < i then r[k] else keys[k]
  }

  lemma PartlyNext(items: seq<Entry>, entries: seq<Entry>, keys: seq<Entry>, r: seq<Entry>, i: nat)
    requires Paired(items, keys, r) && Writable(items) && Partly(entries, keys, r, i) && i < |items|
    ensures Partly(entries[i := Entry(entries[i].key, ValueOf(Part(items, |items| + i)))], keys, r, i + 1)
  {
    assert ValueOf(Part(items, |items| + i)) == items[i].value;
  }

  /** The loop over readValue gives r. */
  ghost predicate ValuesGive(a: Archive, pos: nat, entries: seq<Entry>, i: nat, r: seq<Entry>) {
    forall u {:trigger Unfold(u)} :: u == 0 ==> i <= |entries| && ValuesFrom(a, pos, entries, i) == Some(r)
  }

  lemma ValuesStep(a: Archive, pos: nat, entries: seq<Entry>, i: nat, item: Item, r: seq<Entry>)
    requires PartAt(a, pos, item) && i < |entries|
    requires ValuesGive(a, pos + 1, entries[i := Entry(entries[i].key, ValueOf(item))], i + 1, r)
    ensures ValuesGive(a, pos, entries, i, r)
  {
    assert Unfold(0);
  }

  lemma {:induction false} ValuesRead(a: Archive, start: nat, items: seq<Entry>, i: nat, pos: nat,
                                      entries: seq<Entry>, keys: seq<Entry>, r: seq<Entry>)
    requires Serves(a, start, items) && Writable(items) && i <= |items| && pos == start + |items| + i
    requires Paired(items, keys, r) && Partly(entries, keys, r, i)
    ensures ValuesGive(a, pos, entries, i, r)
    decreases |items| - i
  {
    if i == |items| {
      assert entries == r;
      assert ValuesFrom(a, pos, entries, i) == Some(r);
    } else {
      var part := Part(items, |items| + i);
      var next := entries[i := Entry(entries[i].key, ValueOf(part))];
      PartlyNext(items, entries, keys, r, i);
      ValuesRead(a, start, items, i + 1, pos + 1, next, keys, r);
      assert start + (|items| + i) == pos;
      ValuesStep(a, pos, entries, i, part, r);
    }
  }

  /** init's loop from pos on, with the entries so far, ends with r. */
  ghost predicate ParseGives(a: Archive, pos: nat, entries: seq<Entry>, r: seq<Entry>) {
    forall u {:trigger Unfold(u)} :: u == 0 ==> Parse(a, pos, entries) == Some(r)
  }

  /** At ofs stands an object that init skips, up to next. */
  ghost predicate Skips(s: seq<u8>, ofs: nat, next: nat) {
    forall u {:trigger Unfold(u)} :: u == 0 ==>
      CanItem(s, ofs) && !IsDictionary(s[ofs]) && ReadCountAt(s, ofs).next + ReadCountAt(s, ofs).size == next
  }

  lemma SkipStep(a: Archive, ofs: nat, next: nat, entries: seq<Entry>, r: seq<Entry>)
    requires Skips(a.objects, ofs, next) && ParseGives(a, next, entries, r)
    ensures ParseGives(a, ofs, entries, r)
  {
    assert Unfold(0);
  }

  lemma ItemSkipped(s: seq<u8>, ofs: nat, id: u8, bytes: seq<u8>, next: nat)
    requires id % 16 == 0 && id != DICTIONARY && |bytes| < 0x1_0000 && At(s, ofs, ItemBytes(id, bytes))
    requires next == ofs + |ItemBytes(id, bytes)|
    ensures Skips(s, ofs, next)
  {
    ItemBack(s, ofs, id, bytes);
    var c := ReadCountAt(s, ofs);
    assert CanItem(s, ofs) && c.next + c.size == next && !IsDictionary(s[ofs]);
  }

  lemma PairSkipped(items: seq<Entry>, i: nat, base: nat)
    requires Plain(items) && i < |items| && base == BodyStart(|items|)
    ensures Skips(Objects(items), KeyOffset(base, items, i), ValueOffset(base, items, i))
    ensures Skips(Objects(items), ValueOffset(base, items, i), KeyOffset(base, items, i + 1))
  {
    var e, key, value := items[i], KeyOffset(base, items, i), ValueOffset(base, items, i);
    PairInObjects(items, i);
    PairEnds(items, i, base);
    ItemSkipped(Objects(items), key, STRING, e.key, value);
    ItemSkipped(Objects(items), value, ValueId(e.value), Content(e.value), KeyOffset(base, items, i + 1));
  }

  lemma PairEnds(items: seq<Entry>, i: nat, base: nat)
    requires i < |items|
    ensures KeyOffset(base, items, i + 1)
         == ValueOffset(base, items, i) + |ItemBytes(ValueId(items[i].value), Content(items[i].value))|
  {
    assert items[..i + 1][..i] == items[..i];
  }

  lemma {:induction false} RestSkipped(a: Archive, items: seq<Entry>, i: nat, base: nat, entries: seq<Entry>)
    requires Plain(items) && i <= |items| && a.objects == Objects(items) && base == BodyStart(|items|)
    ensures ParseGives(a, KeyOffset(base, items, i), entries, entries)
    decreases |items| - i
  {
    if i == |items| {
      AtTheEnd(a, items, base, entries);
    } else {
      RestSkipped(a, items, i + 1, base, entries);
      PairSkipped(items, i, base);
      SkipStep(a, ValueOffset(base, items, i), KeyOffset(base, items, i + 1), entries, entries);
      SkipStep(a, KeyOffset(base, items, i), ValueOffset(base, items, i), entries, entries);
    }
  }

  lemma AtTheEnd(a: Archive, items: seq<Entry>, base: nat, entries: seq<Entry>)
    requires a.objects == Objects(items) && base == BodyStart(|items|)
    ensures ParseGives(a, KeyOffset(base, items, |items|), entries, entries)
  {
    var pos := KeyOffset(base, items, |items|);
    assert items[..|items|] == items;
    assert pos == |a.objects|;
    assert Parse(a, pos, entries) == Some(entries);
  }

  /** At pos stands a dictionary of n entries whose indexes start at start. */
  ghost predicate DictionaryAt(s: seq<u8>, pos: nat, n: nat, start: nat) {
    forall u {:trigger Unfold(u)} :: u == 0 ==>
      CanCount(s, pos) && ReadCountAt(s, pos) == Count(n, start) && IsDictionary(s[pos])
  }

  lemma DictionaryHead(s: seq<u8>, pos: nat, n: nat)
    requires n < 0x1_0000 && At(s, pos, Head(DICTIONARY, n))
    ensures DictionaryAt(s, pos, n, pos + |Head(DICTIONARY, n)|)
  {
    CountBack(s, pos, DICTIONARY, n);
    assert CanCount(s, pos) && IsDictionary(s[pos]);
  }

  lemma DictionaryRead(items: seq<Entry>)
    requires Plain(items)
    ensures DictionaryAt(Objects(items), |MAGIC|, |items|, BodyStart(|items|) - 2 * |items|)
  {
    var n := |items|;
    var rest := Indexes(1, 2 * n) + Body(items);
    AtJoined(MAGIC, Head(DICTIONARY, n), rest);
    assert MAGIC + Head(DICTIONARY, n) + rest == Objects(items);
    DictionaryHead(Objects(items), |MAGIC|, n);
  }

  lemma DictionaryStep(a: Archive, pos: nat, n: nat, start: nat, middle: nat, end: nat, i: nat,
                       keys: seq<Entry>, values: seq<Entry>, r: seq<Entry>)
    requires DictionaryAt(a.objects, pos, n, start) && KeysGive(a, start, n, [], keys)
    requires i == 0 && middle == start + n && ValuesGive(a, middle, keys, i, values)
    requires end == middle + |values| && ParseGives(a, end, values, r)
    ensures ParseGives(a, pos, [], r)
  {
    assert Unfold(0);
    assert ReadDictionary(a, start, n, []) == Some(values);
  }

  /** Parsing what the writer writes for one add: the keys sorted, the values in the order in which they were given. */
  lemma InitReads(items: seq<Entry>)
    requires Plain(items) && DistinctKeys(items)
    ensures Init(Data(items)) == Some(ReadBack(items))
  {
    SplitData(items);
    ParseReads(ArchiveOf(items), items, BodyStart(|items|) - 2 * |items|, |items|);
    assert Unfold(0);
  }

  lemma ParseReads(a: Archive, items: seq<Entry>, start: nat, n: nat)
    requires Plain(items) && DistinctKeys(items) && a == ArchiveOf(items) && n == |items|
          && start == BodyStart(n) - 2 * n
    ensures ParseGives(a, |MAGIC|, [], ReadBack(items))
  {
    KeysSorted(items);
    ArchiveServes(a, items, start);
    DictionaryRead(items);
    DictionaryParsed(a, items, start, Keys(items), ReadBack(items), 0);
  }

  lemma DictionaryParsed(a: Archive, items: seq<Entry>, start: nat, keys: seq<Entry>, r: seq<Entry>, i: nat)
    requires Plain(items) && a.objects == Objects(items) && start == BodyStart(|items|) - 2 * |items|
    requires Serves(a, start, items) && DictionaryAt(a.objects, |MAGIC|, |items|, start)
    requires keys == Keys(items) && Paired(items, keys, r) && i == 0
    ensures ParseGives(a, |MAGIC|, [], r)
  {
    var n, values, end := |items|, start + |items|, start + 2 * |items|;
    AllKeysRead(a, start, items, i);
    assert Partly(keys, keys, r, i);
    ValuesRead(a, start, items, i, values, keys, keys, r);
    BodySkipped(a, items, end, r, i);
    ParsedBy(a, n, start, values, end, keys, r, i);
  }

  lemma ParsedBy(a: Archive, n: nat, start: nat, pos: nat, end: nat, keys: seq<Entry>, r: seq<Entry>, i: nat)
    requires DictionaryAt(a.objects, |MAGIC|, n, start) && KeysGive(a, start, n, [], keys) && i == 0
    requires pos == start + n && ValuesGive(a, pos, keys, i, r) && |r| == n
    requires end == pos + n && ParseGives(a, end, r, r)
    ensures ParseGives(a, |MAGIC|, [], r)
  {
    DictionaryStep(a, |MAGIC|, n, start, pos, end, i, keys, r, r);
  }

  lemma BodySkipped(a: Archive, items: seq<Entry>, base: nat, entries: seq<Entry>, i: nat)
    requires Plain(items) && a.objects == Objects(items) && base == BodyStart(|items|) && i == 0
    ensures ParseGives(a, base, entries, entries)
  {
    RestSkipped(a, items, i, base, entries);
    assert items[..i] == [];
  }

  lemma AllKeysRead(a: Archive, start: nat, items: seq<Entry>, i: nat)
    requires Serves(a, start, items) && i == 0
    ensures KeysGive(a, start, |items|, [], Keys(items))
  {
    assert items[..i] == [];
    KeysRead(a, start, items, i, start, []);
  }

  /** The round trip: ascending keys come back with their values, and nothing else does, for every width of offset. */
  lemma RoundTrip(items: seq<Entry>)
    requires Plain(items) && Ascending(items)
    ensures Init(Data(items)) == Some(items)
  {
    forall i, j | 0 <= i < j < |items| ensures items[i].key != items[j].key { LessOrder(items[i].key, items[j].key); }
    InitReads(items);
    ReadBackAscending(items);
  }

  /** When no two values are the same, the data is read back as the pairs written exactly when the keys ascend. */
  lemma RoundTripExactly(items: seq<Entry>)
    requires Plain(items) && DistinctKeys(items) && DistinctValues(items)
    ensures Init(Data(items)).Some?
    ensures (forall x :: x in Init(Data(items)).value ==> x in items) <==> Ascending(items)
  {
    InitReads(items);
    ReadBackExactly(items);
  }

  // ----- The reader in place -----

  lemma Wrapped(x: nat, b: nat)
    ensures (x % TWO64 * 0x100 + b) % TWO64 == (x * 0x100 + b) % TWO64
  {
    var q := x / TWO64;
    var y := x % TWO64 * 0x100 + b;
    DivUnique(x * 0x100 + b, TWO64, q * 0x100 + y / TWO64, y % TWO64);
  }

  lemma ParseNext(a: Archive, pos: nat, entries: seq<Entry>, r: seq<Entry>)
    requires ParseGives(a, pos, entries, r) && pos < |a.objects|
    ensures CanCount(a.objects, pos)
    ensures var c := ReadCountAt(a.objects, pos);
            if IsDictionary(a.objects[pos]) then
              var values := ReadDictionary(a, c.next, c.size, entries);
              values.Some? && ParseGives(a, c.next + c.size + |values.value|, values.value, r)
            else ParseGives(a, c.next + c.size, entries, r)
  {
    assert Unfold(0);
    var c := ReadCountAt(a.objects, pos);
    if IsDictionary(a.objects[pos]) {
      var values := ReadDictionary(a, c.next, c.size, entries);
      assert Parse(a, c.next + c.size + |values.value|, values.value) == Some(r);
    } else {
      assert Parse(a, c.next + c.size, entries) == Some(r);
    }
  }

  lemma DictionaryGives(a: Archive, pos: nat, count: nat, entries: seq<Entry>, r: seq<Entry>) returns (keys: seq<Entry>)
    requires ReadDictionary(a, pos, count, entries) == Some(r)
    ensures KeysGive(a, pos, count, entries, keys) && ValuesGive(a, pos + count, keys, 0, r)
  {
    keys := KeysFrom(a, pos, count, entries).value;
    assert ValuesFrom(a, pos + count, keys, 0) == Some(r);
  }

  lemma KeysPop(a: Archive, pos: nat, count: nat, entries: seq<Entry>, r: seq<Entry>)
    requires KeysGive(a, pos, count, entries, r) && count > 0
    ensures CanRead(a, pos)
    ensures KeysGive(a, pos + 1, count - 1, Insert(entries, Entry(ReadItem(a, pos).bytes, Empty)), r)
  {
    assert Unfold(0);
  }

  lemma KeysDone(a: Archive, pos: nat, count: nat, entries: seq<Entry>, r: seq<Entry>)
    requires KeysGive(a, pos, count, entries, r) && count == 0
    ensures entries == r
  {
    assert Unfold(0);
  }

  lemma ValuesPop(a: Archive, pos: nat, entries: seq<Entry>, i: nat, r: seq<Entry>)
    requires ValuesGive(a, pos, entries, i, r) && i < |entries|
    ensures CanRead(a, pos)
    ensures ValuesGive(a, pos + 1, entries[i := Entry(entries[i].key, ValueOf(ReadItem(a, pos)))], i + 1, r)
  {
    assert Unfold(0);
  }

  lemma ValuesDone(a: Archive, pos: nat, entries: seq<Entry>, i: nat, r: seq<Entry>)
    requires ValuesGive(a, pos, entries, i, r) && i == |entries|
    ensures entries == r
  {
    assert Unfold(0);
  }

  lemma ParseDone(a: Archive, pos: nat, entries: seq<Entry>, r: seq<Entry>)
    requires ParseGives(a, pos, entries, r) && pos >= |a.objects|
    ensures entries == r
  {
    assert Unfold(0);
  }

  /** The reader: bplist after init, with its fields. Where the source would read outside its vectors, the functions
      above say None; the methods are for data on which they do not. */
  class Reader {
    var objects: seq<u8>
    var offset: seq<u8>
    var ofsSize: nat
    var topOfs: nat
    var entries: seq<Entry>

    function Parts(): Archive
      reads this
    {
      Archive(objects, offset, ofsSize, topOfs)
    }

    /** Shifts the n bytes of s from pos on into a number, as readCount, readKey and readValue do. */
    static method ShiftIn(s: seq<u8>, pos: nat, n: nat) returns (count: nat)
      requires pos + n <= |s|
      ensures count == Number(s, pos, n) % TWO64
    {
      count := 0;
      var i := 0;
      while i < n
        invariant 0 <= i <= n && count == Number(s, pos, i) % TWO64
      {
        Wrapped(Number(s, pos, i), s[pos + i]);
        count := (count * 0x100 + s[pos + i]) % TWO64;
        i := i + 1;
      }
    }

    /** readCount. */
    method ReadCount(pos: nat) returns (count: nat, next: nat)
      requires CanCount(objects, pos)
      ensures Count(count, next) == ReadCountAt(objects, pos)
    {
      var id := objects[pos];
      if id % 16 != 15 { return id % 16, pos + 1; }
      var bcount := Pow2(objects[pos + 1] % 16);
      count := ShiftIn(objects, pos + 2, bcount);
      next := pos + 2 + bcount;
    }

    /** The part that readKey and readValue share: the object that the index at pos leads to. */
    method ReadObject(pos: nat) returns (item: Item)
      requires CanRead(Parts(), pos)
      ensures item == ReadItem(Parts(), pos)
    {
      var index := objects[pos] * ofsSize + topOfs;
      var ofs := ShiftIn(offset, index, ofsSize);
      var id := objects[ofs];
      var count, next := ReadCount(ofs);
      item := Item(id / 16 * 16, objects[next..next + count]);
    }

    /** readKey, and the insertion into the map, for each key. */
    method ReadKeys(start: nat, count: nat, ghost r: seq<Entry>) returns (pos: nat)
      requires KeysGive(Parts(), start, count, entries, r)
      modifies this`entries
      ensures pos == start + count && entries == r
    {
      ghost var a, left := Parts(), count;
      pos := start;
      var i := 0;
      while i < count
        invariant 0 <= i <= count && pos == start + i && left == count - i
        invariant Parts() == a && KeysGive(a, pos, left, entries, r)
      {
        KeysPop(a, pos, left, entries, r);
        var item := ReadObject(pos);
        entries := Insert(entries, Entry(item.bytes, Empty));
        pos, i, left := pos + 1, i + 1, left - 1;
      }
      KeysDone(a, pos, left, entries, r);
    }

    /** readValue for each entry of the map, in its order. */
    method ReadValues(start: nat, ghost r: seq<Entry>) returns (pos: nat)
      requires ValuesGive(Parts(), start, entries, 0, r)
      modifies this`entries
      ensures pos == start + |r| && entries == r
    {
      ghost var a := Parts();
      pos := start;
      var i := 0;
      while i < |entries|
        invariant 0 <= i <= |entries| && pos == start + i
        invariant Parts() == a && ValuesGive(a, pos, entries, i, r)
      {
        ValuesPop(a, pos, entries, i, r);
        var item := ReadObject(pos);
        entries := entries[i := Entry(entries[i].key, ValueOf(item))];
        pos, i := pos + 1, i + 1;
      }
      ValuesDone(a, pos, entries, i, r);
    }

    /** A dictionary: its keys, then its values. */
    method ReadEntries(start: nat, count: nat, ghost r: seq<Entry>) returns (pos: nat)
      requires ReadDictionary(Parts(), start, count, entries) == Some(r)
      modifies this`entries
      ensures pos == start + count + |r| && entries == r
    {
      ghost var a := Parts();
      ghost var keys := DictionaryGives(a, start, count, entries, r);
      pos := ReadKeys(start, count, keys);
      pos := ReadValues(pos, r);
    }

    /** The loop of init. */
    method ParseObjects(start: nat, ghost r: seq<Entry>)
      requires ParseGives(Parts(), start, entries, r)
      modifies this`entries
      ensures entries == r
    {
      ghost var a := Parts();
      var pos := start;
      while pos < |objects|
        invariant Parts() == a && ParseGives(a, pos, entries, r)
        decreases |objects| - pos
      {
        ParseNext(a, pos, entries, r);
        var id := objects[pos];
        var count, next := ReadCount(pos);
        if !IsDictionary(id) {
          pos := next + count;
        } else {
          ghost var values := ReadDictionary(a, next, count, entries).value;
          pos := ReadEntries(next, count, values);
        }
      }
      ParseDone(a, pos, entries, r);
    }

    /** init. */
    constructor (data: seq<u8>, ghost r: seq<Entry>)
      requires Init(data) == Some(r)
      ensures entries == r
    {
      var end := |data| - 32;
      var startOfs := Number(data, end + 24, Wide());
      objects, offset := data[..startOfs], data[startOfs..end];
      ofsSize, topOfs := data[end + 6], Number(data, end + 16, Wide());
      entries := [];
      new;
      assert ParseGives(Parts(), |MAGIC|, entries, r);
      ParseObjects(|MAGIC|, r);
    }
  }

  /** What one add makes of a new writer, which has the objects and offsets first and none. */
  lemma DataIs(first: seq<u8>, none: seq<nat>, objects: seq<u8>, offsets: seq<nat>, items: seq<Entry>)
    requires first == MAGIC && none == []
    requires objects == first + Dictionary(|none| + 1, |items|) + Body(items)
    requires Table(offsets, |none|, |first|, |first| + |Dictionary(|none| + 1, |items|)|, items)
    ensures objects == Objects(items) && |offsets| == 1 + 2 * |items|
    ensures Data(items) == objects + OffsetBytes(offsets, OffsetSize(|objects|)) + TrailerFor(|objects|, |offsets|)
  {
    TableIs(offsets, items);
  }

  lemma PlainFits(items: seq<Entry>)
    requires Plain(items)
    ensures Sized(items) && 0 < |Objects(items)| < TWO64 && 1 + 2 * |items| < TWO64
  {
    forall i | 0 <= i < |items| ensures |items[i].value.bytes| < TWO64 {
      assert Content(items[i].value) == items[i].value.bytes;
    }
    ObjectsShort(items);
  }

  /** One add and toData, on a new writer. */
  method Write(items: seq<Entry>) returns (data: seq<u8>)
    requires Plain(items)
    ensures data == Data(items)
  {
    PlainFits(items);
    var writer := new Writer();
    ghost var first, none := writer.objects, writer.ofsIndex;
    writer.Add(items);
    DataIs(first, none, writer.objects, writer.ofsIndex, items);
    data := writer.ToData();
  }

  /** One add, toData and init: the map read has the pairs written. */
  method WriteAndRead(items: seq<Entry>) returns (data: seq<u8>, entries: seq<Entry>)
    requires Plain(items) && Ascending(items)
    ensures data == Data(items) && entries == items
  {
    data := Write(items);
    RoundTrip(items);
    var reader := new Reader(data, items);
    entries := reader.entries;
  }
}
