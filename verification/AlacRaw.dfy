/** The writer of uncompressed ALAC frames (common/libcodecs/addons/alac_wrapper.cpp, pcm_to_alac_raw): stereo
    16-bit samples in a frame whose samples start 55 bits into it. */
module AlacRaw {
  import opened Words
  import opened AlacBits

  /** The input of one call: the sample pairs as the 32-bit words the writer sees on a little-endian machine (left
      sample in the low half), how many of them are taken, and the size of the block. */
  datatype Block = Block(words: seq<u32>, frames: nat, bsize: nat) {
    ghost predicate Valid() { 1 <= frames <= bsize && frames <= |words| && bsize < TWO32 }

    /** The sample pair i of the frame: silence after the pairs taken. */
    function Pair(i: nat): u32 { if i < frames && i < |words| then words[i] else 0 }

    /** What the frame holds from bit 23 on, in 16-bit halves: the size, then the samples. */
    function Half(j: nat): nat {
      if j == 0 then bsize / 0x1_0000
      else if j == 1 then bsize % 0x1_0000
      else if j % 2 == 0 then Pair(j / 2 - 1) % 0x1_0000
      else Pair(j / 2 - 1) / 0x1_0000
    }

    function Halves(): nat { 2 * bsize + 2 }

    /** Byte i of the frame before its last three bits. Each half straddles three bytes. */
    function Byte(i: nat): nat {
      if i < 2 then (if i == 0 then 0x20 else 0)
      else if i == 2 then 0x12 + Half(0) / 0x8000
      else if i % 2 == 1 then Middle((i - 3) / 2)
      else Ending((i - 4) / 2)
    }

    function Middle(j: nat): nat { Half(j) / 0x80 % 0x100 }

    function Ending(j: nat): nat { Half(j) % 0x80 * 2 + Half(j + 1) / 0x8000 }

    /** The index of the last byte: it holds the last two of the three closing bits. */
    function Last(): nat { 7 + 4 * bsize }

    /** Byte i of the frame, which ends in the bits 111 and six zeros. */
    function Closed(i: nat): nat { if i == Last() then 0xC0 else Byte(i) + if i == Last() - 1 then 1 else 0 }
  }

  lemma OnePairHalves(b: Block)
    requires b == Block([0x1234_5678], 1, 1)
    ensures b.Middle(0) == 0x00 && b.Middle(1) == 0x00 && b.Middle(2) == 0xAC && b.Middle(3) == 0x24
    ensures b.Ending(0) == 0x00 && b.Ending(1) == 0x02 && b.Ending(2) == 0xF0 && b.Ending(3) == 0x68
    ensures b.Half(0) == 0 && b.Last() == 11
  {
    assert b.Half(1) == 1 && b.Half(2) == 0x5678 && b.Half(3) == 0x1234 && b.Half(4) == 0;
  }

  /** The whole frame of one sample pair, left 0x5678 and right 0x1234: 20 00 12 00 00 00 02 AC F0 24 69 C0. */
  lemma OnePair(b: Block)
    requires b == Block([0x1234_5678], 1, 1)
    ensures b.Closed(0) == 0x20 && b.Closed(1) == 0x00 && b.Closed(2) == 0x12
    ensures b.Closed(3) == 0x00 && b.Closed(4) == 0x00 && b.Closed(5) == 0x00 && b.Closed(6) == 0x02
    ensures b.Closed(7) == 0xAC && b.Closed(8) == 0xF0 && b.Closed(9) == 0x24 && b.Closed(10) == 0x69
    ensures b.Closed(11) == 0xC0
  {
    OnePairHalves(b);
  }

  /** The bytes p from a word of two samples. */
  lemma WordBits(w: u32)
    ensures w / 0x80 % 0x100 == w % 0x1_0000 / 0x80 % 0x100 && w % 0x80 == w % 0x1_0000 % 0x80
    ensures w / 0x8000_0000 == w / 0x1_0000 / 0x8000 && w / 0x8000 % 2 == w % 0x1_0000 / 0x8000
    ensures w / 0x80_0000 % 0x100 == w / 0x1_0000 / 0x80 % 0x100
  {
    var high, low := w / 0x1_0000, w % 0x1_0000;
    LowHalf(high, low / 0x80, low % 0x80);
    LowBit(high, low / 0x8000, low % 0x8000);
    DivDiv(w, 0x1_0000, 0x8000);
    DivDiv(w, 0x1_0000, 0x80);
  }

  lemma LowHalf(h: nat, x: nat, y: nat)
    requires x < 0x200 && y < 0x80
    ensures (h * 0x1_0000 + (x * 0x80 + y)) / 0x80 % 0x100 == x % 0x100
    ensures (h * 0x1_0000 + (x * 0x80 + y)) % 0x80 == y
  {
    DivUnique(h * 0x1_0000 + (x * 0x80 + y), 0x80, h * 0x200 + x, y);
    DivUnique(h * 0x200 + x, 0x100, 2 * h + x / 0x100, x % 0x100);
  }

  lemma LowBit(h: nat, x: nat, y: nat)
    requires x < 2 && y < 0x8000
    ensures (h * 0x1_0000 + (x * 0x8000 + y)) / 0x8000 % 2 == x
  {
    DivUnique(h * 0x1_0000 + (x * 0x8000 + y), 0x8000, h * 2 + x, y);
  }

  /** The four bytes that a pair w takes after the top bit of its low half: bits 7 to 14 of the low half; its bits 0 to
      6 and the top bit of the high half; bits 7 to 14 of the high half; its bits 0 to 6 and the bit that follows. */
  function First(w: u32): u8 { w / 0x80 % 0x100 }
  function Second(w: u32): u8 { w % 0x80 * 2 + w / 0x8000_0000 }
  function Third(w: u32): u8 { w / 0x80_0000 % 0x100 }
  function Fourth(w: u32, carry: nat): u8
    requires carry <= 1
  {
    w / 0x1_0000 % 0x80 * 2 + carry
  }

  /** The top bit of the low half. */
  function TopBitOf(w: u32): (bit: nat)
    ensures bit <= 1
  {
    w / 0x8000 % 2
  }

  /** The bytes of pair k are those of w, with the bit carry after them. */
  ghost predicate PairIs(byte: nat -> nat, k: nat, w: u32, carry: nat) {
    forall u {:trigger Unfold(u)} :: u == 0 && carry <= 1 ==>
      && byte(7 + 4 * k) == First(w) && byte(8 + 4 * k) == Second(w)
      && byte(9 + 4 * k) == Third(w) && byte(10 + 4 * k) == Fourth(w, carry)
  }

  /** A half and the top bit of the next in the two bytes that end it. */
  ghost predicate Straddles(byte: nat -> nat, j: nat, half: nat, next: nat) {
    forall u {:trigger Unfold(u)} :: u == 0 ==>
      byte(3 + 2 * j) == half / 0x80 % 0x100 && byte(4 + 2 * j) == half % 0x80 * 2 + next / 0x8000
  }

  lemma HalfBytes(b: Block, j: nat)
    ensures Straddles(b.Byte, j, b.Half(j), b.Half(j + 1))
  {
    var odd, even := 3 + 2 * j, 4 + 2 * j;
    assert odd % 2 == 1 && (odd - 3) / 2 == j && even % 2 == 0 && (even - 4) / 2 == j && even > 2;
    assert b.Byte(odd) == b.Middle(j);
    assert b.Byte(even) == b.Ending(j);
  }

  lemma PairBytes(b: Block, k: nat)
    requires b.Valid() && k < b.bsize
    ensures PairIs(b.Byte, k, b.Pair(k), TopBitOf(b.Pair(k + 1)))
  {
    PairHalves(b, k);
    PairHalves(b, k + 1);
    HalfBytes(b, 2 + 2 * k);
    HalfBytes(b, 3 + 2 * k);
    PairIsBy(b.Byte, k, b.Pair(k), b.Pair(k + 1), b.Half(2 + 2 * k), b.Half(3 + 2 * k), b.Half(4 + 2 * k));
  }

  lemma PairIsBy(byte: nat -> nat, k: nat, w: u32, after: u32, low: nat, high: nat, next: nat)
    requires Straddles(byte, 2 + 2 * k, low, high) && Straddles(byte, 3 + 2 * k, high, next)
    requires low == w % 0x1_0000 && high == w / 0x1_0000 && next == after % 0x1_0000
    ensures PairIs(byte, k, w, TopBitOf(after))
  {
    assert Unfold(0);
    WordBits(w);
    WordBits(after);
    assert 3 + 2 * (2 + 2 * k) == 7 + 4 * k && 4 + 2 * (2 + 2 * k) == 8 + 4 * k;
    assert 3 + 2 * (3 + 2 * k) == 9 + 4 * k && 4 + 2 * (3 + 2 * k) == 10 + 4 * k;
    assert byte(7 + 4 * k) == First(w);
    assert byte(8 + 4 * k) == Second(w);
    assert byte(9 + 4 * k) == Third(w);
    assert byte(10 + 4 * k) == Fourth(w, TopBitOf(after));
  }

  lemma PairHalves(b: Block, k: nat)
    ensures b.Half(2 + 2 * k) == b.Pair(k) % 0x1_0000 && b.Half(3 + 2 * k) == b.Pair(k) / 0x1_0000
  {}

  lemma HeaderBytes(b: Block)
    requires b.Valid()
    ensures b.Byte(2) == 0x12 + b.bsize / 0x8000_0000 && b.Byte(3) == b.bsize / 0x80_0000 % 0x100
    ensures b.Byte(4) == b.bsize / 0x8000 % 0x100 && b.Byte(5) == b.bsize / 0x80 % 0x100
    ensures b.Byte(6) == b.bsize % 0x80 * 2 + TopBitOf(b.Pair(0))
  {
    WordBits(b.bsize);
    WordBits(b.Pair(0));
    HalfBytes(b, 0);
    HalfBytes(b, 1);
    assert Unfold(0);
    HeaderMiddle(b.bsize / 0x1_0000, b.bsize % 0x1_0000);
  }

  lemma HeaderMiddle(h: nat, l: nat)
    requires l < 0x1_0000
    ensures (h * 0x1_0000 + l) / 0x8000 % 0x100 == h % 0x80 * 2 + l / 0x8000
  {
    DivUnique(h * 0x1_0000 + l, 0x8000, 2 * h + l / 0x8000, l % 0x8000);
    DivUnique(2 * h + l / 0x8000, 0x100, h / 0x80, h % 0x80 * 2 + l / 0x8000);
  }

  function Min(a: nat, b: nat): nat { if a < b then a else b }

  ghost predicate Written(out: array<u8>, byte: nat -> nat, n: int)
    reads out
  {
    n <= out.Length && forall i {:trigger out[i]} :: 0 <= i < n ==> out[i] == byte(i)
  }

  /** The first byte of the frame to the first sample's top bit. */
  method PutHeader(out: array<u8>, ghost b: Block, w: u32, bsize: u32)
    requires b.Valid() && b.bsize == bsize && w == b.Pair(0) && 7 <= out.Length && bsize < 0x8000_0000
    modifies out
    ensures Written(out, b.Byte, 7)
  {
    HeaderBytes(b);
    out[0] := 0x20;
    out[1] := 0;
    out[2] := 0x12 + bsize / 0x8000_0000;
    out[3] := bsize / 0x80_0000 % 0x100;
    out[4] := bsize / 0x8000 % 0x100;
    out[5] := bsize / 0x80 % 0x100;
    out[6] := bsize % 0x80 * 2;
    out[6] := out[6] + TopBitOf(w);
  }

  /** The four stores for a pair and the bit that follows it. */
  method PutPair(out: array<u8>, ghost byte: nat -> nat, start: nat, b1: u8, b2: u8, b3: u8, b4: u8) returns (p: nat)
    requires start + 4 <= out.Length && Written(out, byte, start)
    requires byte(start) == b1 && byte(start + 1) == b2 && byte(start + 2) == b3 && byte(start + 3) == b4
    modifies out
    ensures p == start + 4 && Written(out, byte, p)
  {
    p := start;
    out[p] := b1; p := p + 1;
    out[p] := b2; p := p + 1;
    out[p] := b3; p := p + 1;
    out[p] := b4; p := p + 1;
  }

  lemma PairIsAt(byte: nat -> nat, k: nat, start: nat, w: u32, carry: nat)
    requires PairIs(byte, k, w, carry) && start == 7 + 4 * k && carry <= 1
    ensures byte(start) == First(w) && byte(start + 1) == Second(w) && byte(start + 2) == Third(w)
    ensures byte(start + 3) == Fourth(w, carry)
  {
    assert Unfold(0);
  }

  /** The frame with the bits 111 at the end: the last bit of the byte before the last, and the last byte. */
  ghost predicate Closes(byte: nat -> nat, closed: nat -> nat, last: nat) {
    && (forall i: nat {:trigger closed(i)} :: i + 1 < last ==> closed(i) == byte(i))
    && (last > 0 ==> closed(last - 1) == byte(last - 1) + 1) && closed(last) == 0xC0
  }

  /** The zeros for the pairs not given, and the last three bits. */
  method FillAndClose(out: array<u8>, ghost byte: nat -> nat, ghost closed: nat -> nat, start: nat, missing: nat,
                      ghost last: nat)
    returns (p: nat)
    requires 0 < start && last == start + 4 * missing < out.Length && Written(out, byte, start)
    requires forall i :: start <= i < last ==> byte(i) == 0
    requires byte(last - 1) % 2 == 0 && Closes(byte, closed, last)
    modifies out
    ensures p == last && Written(out, closed, p + 1)
  {
    p := start;
    var count := missing * 4;
    while count > 0
      invariant 0 <= count <= missing * 4 && p == last - count && Written(out, byte, p)
    {
      out[p] := 0;
      p, count := p + 1, count - 1;
    }
    assert out[p - 1] == byte(p - 1) && out[p - 1] % 2 == 0;
    out[p - 1] := out[p - 1] / 2 * 2 + 1;
    assert out[p - 1] == byte(p - 1) + 1;
    out[p] := 7 / 2 * 0x40;
  }

  /** pcm_to_alac_raw. The shifts and masks are divisions and remainders; the parts of a byte do not overlap. */
  method PcmToAlacRaw(words: seq<u32>, frames: nat, bsize: nat) returns (out: array<u8>, size: nat)
    requires 1 <= frames <= |words| && 1 <= bsize && 4 * bsize + 16 < 0x8000_0000
    ensures fresh(out) && size == 4 * bsize + 8 <= out.Length
    ensures Written(out, Block(words, Min(frames, bsize), bsize).Closed, size)
  {
    var frames := Min(frames, bsize);
    ghost var b := Block(words, frames, bsize);
    ghost var byte := b.Byte;
    out := new u8[bsize * 4 + 16];
    PutHeader(out, b, words[0], bsize);
    var p, k := 7, 0;
    while k < frames - 1
      invariant 0 <= k <= frames - 1 && p == 7 + 4 * k
      invariant Written(out, byte, p)
    {
      PairBytes(b, k);
      var w, next := words[k], TopBitOf(words[k + 1]);
      PairIsAt(byte, k, p, w, next);
      p := PutPair(out, byte, p, First(w), Second(w), Third(w), Fourth(w, next));
      k := k + 1;
    }
    LastPair(b, k);
    var w := words[k];
    PairIsAt(byte, k, p, w, 0);
    p := PutPair(out, byte, p, First(w), Second(w), Third(w), Fourth(w, 0));
    SilentBytes(b);
    LastBytes(b);
    p := FillAndClose(out, byte, b.Closed, p, bsize - frames, b.Last());
    size := p + 1;
  }

  lemma LastPair(b: Block, k: nat)
    requires b.Valid() && k == b.frames - 1
    ensures PairIs(b.Byte, k, b.Pair(k), 0)
  {
    PairBytes(b, k);
  }

  lemma SilentBytes(b: Block)
    requires b.Valid()
    ensures forall i :: 7 + 4 * b.frames <= i < b.Last() ==> b.Byte(i) == 0
  {
    forall i | 7 + 4 * b.frames <= i < b.Last() ensures b.Byte(i) == 0 {
      if i % 2 == 1 { SilentHalf(b, (i - 3) / 2); } else { SilentHalf(b, (i - 4) / 2); SilentHalf(b, (i - 4) / 2 + 1); }
    }
  }

  lemma SilentHalf(b: Block, j: nat)
    requires j >= 2 + 2 * b.frames
    ensures b.Half(j) == 0
  {}

  lemma LastBytes(b: Block)
    requires b.Valid()
    ensures b.Byte(b.Last() - 1) % 2 == 0 && Closes(b.Byte, b.Closed, b.Last())
  {
    SilentHalf(b, b.Halves());
  }

  // ----- Reading the frame back -----

  /** The memory starts with the frame. */
  ghost predicate Holds(m: Memory, b: Block) {
    forall i: nat {:trigger m(i)} :: i <= b.Last() ==> m(i) == b.Closed(i)
  }

  lemma HalfNumbers(h: nat)
    ensures Joined(h, h / 0x8000, 0x8000, h % 0x8000)
    ensures Joined(h % 0x8000, h / 0x80 % 0x100, 0x80, h % 0x80)
  {
    DivUnique(h, 0x80, h / 0x8000 * 0x100 + h % 0x8000 / 0x80, h % 0x8000 % 0x80);
    DivUnique(h / 0x80, 0x100, h / 0x8000, h % 0x8000 / 0x80);
  }

  lemma HalfInBytes(m: Memory, b: Block, j: nat)
    requires b.Valid() && Holds(m, b) && j < b.Halves()
    ensures m(3 + 2 * j) == b.Half(j) / 0x80 % 0x100 && m(4 + 2 * j) / 2 == b.Half(j) % 0x80
  {
    HalfBytes(b, j);
    assert Unfold(0);
    assert m(4 + 2 * j) == b.Closed(4 + 2 * j) && m(3 + 2 * j) == b.Byte(3 + 2 * j);
    HalfBound(b, j + 1);
    if 4 + 2 * j == b.Last() - 1 { SilentHalf(b, j + 1); }
  }

  lemma HalfStarts(m: Memory, b: Block, j: nat)
    requires b.Valid() && Holds(m, b) && j < b.Halves()
    ensures m(2 + 2 * j) % 2 == b.Half(j) / 0x8000
  {
    HalfBound(b, j);
    assert m(2 + 2 * j) == b.Byte(2 + 2 * j);
    if j > 0 { EndingBit(b, j - 1); }
  }

  lemma EndingBit(b: Block, j: nat)
    requires b.Half(j + 1) < 0x1_0000
    ensures b.Byte(4 + 2 * j) % 2 == b.Half(j + 1) / 0x8000
  {
    HalfBytes(b, j);
    assert Unfold(0);
  }

  lemma HalfBound(b: Block, j: nat)
    requires b.Valid()
    ensures b.Half(j) < 0x1_0000
  {}

  /** Each half of the frame is what the reader finds 16 bits wide at bit 23 + 16 j. */
  lemma HalfReads(m: Memory, b: Block, j: nat)
    requires b.Valid() && Holds(m, b) && j < b.Halves()
    ensures Reads(m, 23 + 16 * j, 16, b.Half(j))
  {
    HalfStarts(m, b, j);
    HalfInBytes(m, b, j);
    StraddlingReads(m, 2 + 2 * j, 23 + 16 * j, b.Half(j), 7, 8);
  }

  lemma StraddlingReads(m: Memory, i: nat, p: nat, h: nat, a: nat, n: nat)
    requires m(i) % 2 == h / 0x8000 && m(i + 1) == h / 0x80 % 0x100 && m(i + 2) / 2 == h % 0x80
    requires p == 8 * i + 7 && a == 7 && n == 8
    ensures Reads(m, p, 16, h)
  {
    var top, mid, low, rest := h / 0x8000, h / 0x80 % 0x100, h % 0x80, h % 0x8000;
    SplitReads(m, i, top, mid, low);
    HalfNumbers(h);
    Pow2Of15(15);
    Pow2Constants();
    ReadsJoined(m, p + 1, n, mid, a, low, rest);
    ReadsJoined(m, p, 1, top, n + a, rest, h);
  }

  lemma Pow2Of15(n: nat)
    requires n == 15
    ensures Pow2(n) == 0x8000
  {
    Pow2Constants();
    assert Pow2(n) == 2 * Pow2(n - 1);
  }

  lemma SplitReads(m: Memory, i: nat, top: nat, mid: nat, low: nat)
    requires m(i) % 2 == top && m(i + 1) == mid && m(i + 2) / 2 == low
    ensures Reads(m, 8 * i + 7, 1, top) && Reads(m, 8 * i + 8, 8, mid) && Reads(m, 8 * i + 16, 7, low)
  {
    LastBit(m, i);
    WholeByte(m, 8 * i + 8, i + 1, 8);
    TopBits(m, i + 2, 7);
    assert Pow2(1) == 2;
  }
}
