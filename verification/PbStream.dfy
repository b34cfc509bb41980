/** pb_ostream_t and pb_istream_t over memory buffers, and the scalar encoders and decoders. */
module PbStream {
  import opened Words
  import opened PbVarint

  /** b with the bytes from position p on overwritten by x. */
  function Splice(b: seq<u8>, p: nat, x: seq<u8>): (r: seq<u8>)
    requires p + |x| <= |b|
    ensures |r| == |b|
  {
    b[..p] + x + b[p + |x|..]
  }

  lemma SpliceTwice(b: seq<u8>, p: nat, x: seq<u8>, y: seq<u8>)
    requires p + |x| + |y| <= |b|
    ensures Splice(Splice(b, p, x), p + |x|, y) == Splice(b, p, x + y)
  {}

  /** Concatenation of encodings that may have failed. */
  function Cat(a: Option<seq<u8>>, b: Option<seq<u8>>): Option<seq<u8>> {
    if a.Some? && b.Some? then Some(a.value + b.value) else None
  }

  /** The contents of an output stream at one moment. */
  datatype OSnap = OSnap(sink: array?<u8>, content: seq<u8>, state: nat, maxSize: nat, written: nat) {
    ghost predicate Valid() {
      sink != null ==> written <= maxSize && state + (maxSize - written) <= |content|
    }
  }

  /** An encoder with specification e takes the stream from a to b: it succeeds exactly when e is
      defined and fits, e is then what it wrote (or counted), and nothing past maxSize is touched. */
  ghost predicate Emits(a: OSnap, b: OSnap, ok: bool, e: Option<seq<u8>>)
    requires a.Valid()
  {
    && b.Valid() && b.sink == a.sink && b.maxSize == a.maxSize && |b.content| == |a.content|
    && (ok <==> e.Some? && (a.sink != null ==> a.written + |e.value| <= a.maxSize))
    && (ok ==> b.written == a.written + |e.value|)
    && (a.sink != null ==>
          if ok then b.state == a.state + |e.value| && b.content == Splice(a.content, a.state, e.value)
          else Untouched(a.content, b.content, a.state, a.state + (a.maxSize - a.written)))
  }

  /** The two buffers agree outside [lo, hi). */
  ghost predicate Untouched(b: seq<u8>, c: seq<u8>, lo: nat, hi: nat) {
    |b| == |c| && forall i :: 0 <= i < |b| && !(lo <= i < hi) ==> c[i] == b[i]
  }

  /** Two encoders in a row. */
  lemma EmitsThen(a: OSnap, b: OSnap, c: OSnap, x: Option<seq<u8>>, ok: bool, y: Option<seq<u8>>)
    requires a.Valid() && Emits(a, b, true, x) && Emits(b, c, ok, y)
    ensures Emits(a, c, ok, Cat(x, y))
  {
    if a.sink != null {
      if ok { SpliceTwice(a.content, a.state, x.value, y.value); }
    }
  }

  /** A first encoder that fails. */
  lemma EmitsStop(a: OSnap, b: OSnap, x: Option<seq<u8>>, y: Option<seq<u8>>)
    requires a.Valid() && Emits(a, b, false, x)
    ensures Emits(a, b, false, Cat(x, y))
  {}

  /** An output stream. A null sink is the C code's null callback: the stream only counts. */
  class OStream {
    var sink: array?<u8>
    var state: nat
    var maxSize: nat
    var bytesWritten: nat

    /** The room promised by maxSize really is in the buffer. */
    ghost predicate Valid()
      reads this, sink
    {
      sink != null ==> bytesWritten <= maxSize && state + (maxSize - bytesWritten) <= sink.Length
    }

    constructor Sizing()
      ensures Valid() && sink == null && bytesWritten == 0
    {
      sink, state, maxSize, bytesWritten := null, 0, 0, 0;
    }

    constructor FromBuffer(buf: array<u8>, start: nat, size: nat)
      requires start + size <= buf.Length
      ensures Valid() && sink == buf && state == start && maxSize == size && bytesWritten == 0
    {
      sink, state, maxSize, bytesWritten := buf, start, size, 0;
    }

    ghost function Snap(): OSnap
      reads this, sink
    {
      OSnap(sink, if sink == null then [] else sink[..], state, maxSize, bytesWritten)
    }

    /** What an encoder with specification e does to the stream. */
    twostate predicate Emitted(ok: bool, new e: Option<seq<u8>>)
      requires old(Valid())
      reads this, sink
    {
      Valid() && Emits(old(Snap()), Snap(), ok, e)
    }

    method Write(buf: seq<u8>) returns (ok: bool)
      requires Valid()
      modifies this, sink
      ensures Emitted(ok, Some(buf))
    {
      if |buf| > 0 && sink != null {
        if bytesWritten + |buf| > maxSize {
          return false;
        }
        forall i | 0 <= i < |buf| {
          sink[state + i] := buf[i];
        }
        assert sink[..] == Splice(old(sink[..]), state, buf);
        state := state + |buf|;
      }
      bytesWritten := bytesWritten + |buf|;
      ok := true;
    }
  }

  method EncodeVarint(stream: OStream, value: u64) returns (ok: bool)
    requires stream.Valid()
    modifies stream, stream.sink
    ensures stream.Emitted(ok, Some(VarintBytes(value)))
  {
    if value <= 0x7F {
      ok := stream.Write([value]);
    } else {
      ok := EncodeVarint32(stream, value % TWO32, value / TWO32);
    }
  }

  /** The two halves of a 64-bit number, without 64-bit shifts. */
  method EncodeVarint32(stream: OStream, low0: u32, high0: u32) returns (ok: bool)
    requires stream.Valid()
    modifies stream, stream.sink
    ensures stream.Emitted(ok, Some(VarintBytes(low0 + TWO32 * high0)))
  {
    var buffer := SplitVarint(low0, high0);
    ok := stream.Write(buffer);
  }

  /** What is still to be written when i groups have been stored: byte is the next one, low has room
      left for the low half's remaining bits. */
  function LowRoom(i: nat): nat {
    if i == 0 then 0x200_0000 else if i == 1 then 0x4_0000 else if i == 2 then 0x800 else if i == 3 then 0x10 else 1
  }

  method SplitVarint(low0: u32, high0: u32) returns (buffer: seq<u8>)
    ensures buffer == VarintBytes(low0 + TWO32 * high0) && |buffer| <= 10
  {
    var low: u32, high: u32 := low0, high0;
    buffer := [];
    var byte: u8 := low % 0x80;
    low := low / 0x80;
    ghost var v := low0 + TWO32 * high0;
    ghost var rest: nat := v;
    while |buffer| < 4 && (low != 0 || high != 0)
      invariant |buffer| <= 4 && byte < 0x80 && low < LowRoom(|buffer|) && high == high0 && rest >= 0
      invariant |buffer| < 4 ==> rest == byte + 0x80 * (low + LowRoom(|buffer|) * high)
      invariant |buffer| == 4 ==> rest == byte + 0x10 * high && byte < 0x10
      invariant buffer + VarintBytes(rest) == VarintBytes(v)
    {
      LowStep(|buffer|, byte, low, high, rest);
      rest := Push(buffer, byte, rest, v);
      buffer := buffer + [byte + 0x80];
      byte := low % 0x80;
      low := low / 0x80;
    }
    if high != 0 {
      byte := byte + (high % 8) * 0x10;
      high := high / 8;
      while high != 0
        invariant 4 <= |buffer| <= 9 && byte < 0x80
        invariant high < HighRoom(|buffer|)
        invariant rest == byte + 0x80 * high
        invariant buffer + VarintBytes(rest) == VarintBytes(v)
      {
        HighStep(|buffer|, byte, high, rest);
        rest := Push(buffer, byte, rest, v);
        buffer := buffer + [byte + 0x80];
        byte := high % 0x80;
        high := high / 0x80;
      }
    }
    buffer := buffer + [byte];
  }

  lemma LowStep(i: nat, byte: u8, low: nat, high: nat, rest: nat)
    requires i < 4 && byte < 128 && low < LowRoom(i) && (low != 0 || high != 0)
    requires rest == byte + 0x80 * (low + LowRoom(i) * high)
    ensures rest >= 128 && rest % 128 == byte && rest / 128 == low + LowRoom(i) * high
    ensures low / 0x80 < LowRoom(i + 1)
    ensures rest / 128 == low % 0x80 + if i == 3 then 0x10 * high else 0x80 * (low / 0x80 + LowRoom(i + 1) * high)
  {
    if i == 0 {
      assert rest / 128 == low + 0x200_0000 * high;
    } else if i == 1 {
      assert rest / 128 == low + 0x4_0000 * high;
    } else if i == 2 {
      assert rest / 128 == low + 0x800 * high;
    } else {
      assert rest / 128 == low + 0x10 * high;
    }
  }

  lemma HighStep(i: nat, byte: u8, high: nat, rest: nat)
    requires 4 <= i <= 9 && byte < 128 && 0 < high < HighRoom(i) && rest == byte + 0x80 * high
    ensures rest >= 128 && rest % 128 == byte && rest / 128 == high % 0x80 + 0x80 * (high / 0x80)
    ensures i < 9 && high / 0x80 < HighRoom(i + 1)
  {}

  function HighRoom(i: nat): nat {
    if i <= 4 then 0x2000_0000 else if i == 5 then 0x40_0000 else if i == 6 then 0x8000
    else if i == 7 then 0x100 else if i == 8 then 2 else 1
  }

  /** One group moves from the number to the buffer. */
  lemma Push(buffer: seq<u8>, byte: u8, rest: nat, v: nat) returns (rest': nat)
    requires byte < 128 && rest % 128 == byte && rest >= 128
    requires buffer + VarintBytes(rest) == VarintBytes(v)
    ensures rest' == rest / 128 && buffer + [byte + 128] + VarintBytes(rest') == VarintBytes(v)
  {
    rest' := rest / 128;
    assert VarintBytes(rest) == [byte + 128] + VarintBytes(rest');
  }

  function ToU64(n: int): u64
    requires -0x8000_0000_0000_0000 <= n < TWO64
  {
    if n < 0 then n + TWO64 else n
  }

  /** The complement of twice the low 63 bits of a negative number is its zigzag form. */
  method EncodeSvarint(stream: OStream, value: int) returns (ok: bool)
    requires stream.Valid()
    requires -0x8000_0000_0000_0000 <= value < 0x8000_0000_0000_0000
    modifies stream, stream.sink
    ensures stream.Emitted(ok, Some(VarintBytes(ZigZag(value))))
  {
    var zigzagged;
    if value < 0 {
      zigzagged := (TWO64 - 1) - (ToU64(value) % 0x8000_0000_0000_0000) * 2;
    } else {
      zigzagged := ToU64(value) * 2;
    }
    assert zigzagged == ZigZag(value);
    ok := EncodeVarint(stream, zigzagged);
  }

  /** n bytes, least significant first. */
  function LeBytes(v: nat, n: nat): (s: seq<u8>)
    ensures |s| == n
  {
    if n == 0 then [] else [v % 0x100] + LeBytes(v / 0x100, n - 1)
  }

  function LeValue(s: seq<u8>): nat {
    if s == [] then 0 else s[0] + 0x100 * LeValue(s[1..])
  }

  lemma {:induction false} LeRoundTrip(v: nat, n: nat)
    requires v < Pow2(8 * n)
    ensures LeValue(LeBytes(v, n)) == v
  {
    if n > 0 {
      Pow2Constants();
      Pow2Add(8, 8 * (n - 1));
      LeRoundTrip(v / 0x100, n - 1);
      assert LeBytes(v, n)[1..] == LeBytes(v / 0x100, n - 1);
    }
  }

  lemma {:induction false} LeBytesIs8(v: u64)
    ensures LeBytes(v, 8) == [v % 0x100, v / 0x100 % 0x100, v / 0x1_0000 % 0x100, v / 0x100_0000 % 0x100,
                              v / 0x1_0000_0000 % 0x100, v / 0x100_0000_0000 % 0x100,
                              v / 0x1_0000_0000_0000 % 0x100, v / 0x100_0000_0000_0000 % 0x100]
  {
    var w: u64 := v / 0x1_0000_0000;
    LeBytesIs4(v, 4);
    LeBytesIs4(w, 0);
    assert LeBytes(v, 8) == LeBytes(v, 8)[..4] + LeBytes(w, 4)[..4];
    UpperBytes(v);
  }

  lemma UpperBytes(v: u64)
    ensures var w := v / 0x1_0000_0000;
            w / 0x100 == v / 0x100_0000_0000 && w / 0x1_0000 == v / 0x1_0000_0000_0000
            && w / 0x100_0000 == v / 0x100_0000_0000_0000
  {}

  lemma {:induction false} LeBytesIs4(v: u64, k: nat)
    ensures LeBytes(v, 4 + k)[..4] == [v % 0x100, v / 0x100 % 0x100, v / 0x1_0000 % 0x100, v / 0x100_0000 % 0x100]
    ensures LeBytes(v, 4 + k)[4..] == LeBytes(v / 0x1_0000_0000, k)
  {
    var v1, v2, v3, v4 := v / 0x100, v / 0x1_0000, v / 0x100_0000, v / 0x1_0000_0000;
    assert v1 / 0x100 == v2 && v2 / 0x100 == v3 && v3 / 0x100 == v4;
    assert LeBytes(v, 4 + k) == [v % 0x100] + LeBytes(v1, 3 + k);
    assert LeBytes(v1, 3 + k) == [v1 % 0x100] + LeBytes(v2, 2 + k);
    assert LeBytes(v2, 2 + k) == [v2 % 0x100] + LeBytes(v3, 1 + k);
    assert LeBytes(v3, 1 + k) == [v3 % 0x100] + LeBytes(v4, k);
    assert LeBytes(v, 4 + k) == [v % 0x100, v1 % 0x100, v2 % 0x100, v3 % 0x100] + LeBytes(v4, k);
  }

  method EncodeFixed32(stream: OStream, val: u32) returns (ok: bool)
    requires stream.Valid()
    modifies stream, stream.sink
    ensures stream.Emitted(ok, Some(LeBytes(val, 4)))
  {
    LeBytesIs4(val, 0);
    ok := stream.Write([val % 0x100, val / 0x100 % 0x100, val / 0x1_0000 % 0x100, val / 0x100_0000 % 0x100]);
  }

  method EncodeFixed64(stream: OStream, val: u64) returns (ok: bool)
    requires stream.Valid()
    modifies stream, stream.sink
    ensures stream.Emitted(ok, Some(LeBytes(val, 8)))
  {
    LeBytesIs8(val);
    ok := stream.Write([val % 0x100, val / 0x100 % 0x100, val / 0x1_0000 % 0x100, val / 0x100_0000 % 0x100,
                        val / 0x1_0000_0000 % 0x100, val / 0x100_0000_0000 % 0x100,
                        val / 0x1_0000_0000_0000 % 0x100, val / 0x100_0000_0000_0000 % 0x100]);
  }

  /** The length is cast to 64 bits. */
  function LengthPrefixed(b: seq<u8>): seq<u8> { VarintBytes(|b| % TWO64) + b }

  method EncodeString(stream: OStream, buffer: seq<u8>) returns (ok: bool)
    requires stream.Valid()
    modifies stream, stream.sink
    ensures stream.Emitted(ok, Some(LengthPrefixed(buffer)))
  {
    ghost var s0, e0, e1 := stream.Snap(), Some(VarintBytes(|buffer| % TWO64)), Some(buffer);
    ok := EncodeVarint(stream, |buffer| % TWO64);
    ghost var s1 := stream.Snap();
    if !ok { EmitsStop(s0, s1, e0, e1); return; }
    ok := stream.Write(buffer);
    EmitsThen(s0, s1, stream.Snap(), e0, ok, e1);
  }

  // ---- Input --------------------------------------------------------------------------------

  /** An input stream over a buffer; a substream is a second object over the same buffer. */
  class IStream {
    const buf: seq<u8>
    var state: nat
    var bytesLeft: nat
    /** The bytes still to be read. */
    ghost var rest: seq<u8>

    ghost predicate Valid()
      reads this
    {
      state + bytesLeft <= |buf| && |rest| == bytesLeft && rest == buf[state..state + bytesLeft]
    }

    constructor (buf: seq<u8>, start: nat, length: nat)
      requires start + length <= |buf|
      ensures Valid() && this.buf == buf && state == start && rest == buf[start..start + length]
    {
      this.buf, state, bytesLeft := buf, start, length;
      rest := buf[start..start + length];
    }

    /** n bytes have been consumed. */
    twostate predicate Took(n: nat)
      requires old(Valid())
      reads this
    {
      Valid() && n <= |old(rest)| && state == old(state) + n && rest == old(rest)[n..]
    }

    /** A decoder with specification r ran: it succeeds exactly when r is defined, consuming what r says. */
    twostate predicate Decoded<T>(ok: bool, new value: T, new r: Option<(T, nat)>)
      requires old(Valid())
      reads this
    {
      Valid() && state + bytesLeft <= old(state + bytesLeft)
      && (ok <==> r.Some?) && (ok ==> value == r.value.0 && Took(r.value.1))
    }

    method Read(count: nat) returns (ok: bool, data: seq<u8>)
      requires Valid()
      modifies this
      ensures Valid() && ok == (count <= old(bytesLeft))
      ensures ok ==> data == old(rest)[..count] && Took(count)
      ensures !ok ==> unchanged(this)
    {
      data := [];
      if count == 0 { return true, []; }
      if bytesLeft < count { return false, []; }
      data := buf[state..state + count];
      SliceOfSlice(buf, state, state + bytesLeft, 0, count);
      SliceOfSlice(buf, state, state + bytesLeft, count, bytesLeft);
      state := state + count;
      bytesLeft := bytesLeft - count;
      rest := rest[count..];
      ok := true;
    }

    method ReadByte() returns (ok: bool, byte: u8)
      requires Valid()
      modifies this
      ensures Valid() && ok == (old(bytesLeft) > 0)
      ensures ok ==> byte == old(rest)[0] && Took(1)
      ensures !ok ==> unchanged(this)
    {
      byte := 0;
      if bytesLeft == 0 { return false, 0; }
      byte := buf[state];
      SliceOfSlice(buf, state, state + bytesLeft, 1, bytesLeft);
      state := state + 1;
      bytesLeft := bytesLeft - 1;
      rest := rest[1..];
      ok := true;
    }
  }

  lemma {:induction false} Base128Snoc(s: seq<u8>, b: u8)
    ensures Base128(s + [b]) == Base128(s) + b % 128 * Pow2(7 * |s|)
    ensures Base128(s) < Pow2(7 * |s|)
  {
    if s == [] {
      assert (s + [b])[1..] == [];
    } else {
      Base128Snoc(s[1..], b);
      assert (s + [b])[1..] == s[1..] + [b];
      var p := Pow2(7 * (|s| - 1));
      assert Pow2(7 * |s|) == 128 * p by { Pow2Constants(); Pow2Add(7, 7 * (|s| - 1)); }
      Scale(b % 128, p);
    }
  }

  lemma {:induction false} Scale(g: nat, p: nat)
    ensures 128 * (g * p) == g * (128 * p)
  {}

  /** A varint that does not stop within its first n bytes, all present. */
  lemma RunsOn(s: seq<u8>, n: nat)
    requires n <= |s| && forall j :: 0 <= j < n ==> s[j] >= 128
    ensures n == |s| ==> Extent(s).None?
    ensures Extent(s).Some? ==> Extent(s).value > n
  {}

  /** The low seven bits of a byte, shifted. */
  function Digit(byte: u8, bitpos: nat): nat { byte % 0x80 * Pow2(bitpos) }

  lemma DigitAdded(s: seq<u8>, i: nat, byte: u8)
    requires i < |s| && byte == s[i]
    ensures Base128(s[..i + 1]) == Base128(s[..i]) + Digit(byte, 7 * i)
  {
    Base128Snoc(s[..i], byte);
    assert s[..i] + [byte] == s[..i + 1];
  }

  /** i bytes have been read, all of which go on; result is their value. */
  ghost predicate Open(s: seq<u8>, i: nat, result: nat) {
    forall u {:trigger Unfold(u)} :: u == 0 ==>
      i <= |s| && i <= 9 && result == Base128(s[..i]) && forall j :: 0 <= j < i ==> s[j] >= 128
  }

  lemma OpenStart(s: seq<u8>)
    ensures Open(s, 0, 0)
  {
    assert Base128(s[..0]) == 0;
  }

  lemma OpenEnds(s: seq<u8>, i: nat, result: nat)
    requires Open(s, i, result) && i == |s|
    ensures ReadVarint(s).None?
  {
    assert Unfold(0);
    RunsOn(s, i);
  }

  /** The tenth byte holds one bit. */
  predicate TooLong(bitpos: nat, byte: u8) { bitpos >= 63 && byte / 2 != 0 }

  lemma OpenTooLong(s: seq<u8>, i: nat, result: nat)
    requires Open(s, i, result) && i < |s| && TooLong(7 * i, s[i])
    ensures ReadVarint(s).None?
  {
    assert Unfold(0);
    RunsOn(s, i);
    assert i == 9 && s[9] > 1;
  }

  lemma OpenNext(s: seq<u8>, i: nat, result: nat)
    requires Open(s, i, result) && i < |s| && !TooLong(7 * i, s[i]) && s[i] >= 0x80
    ensures i < 9 && Open(s, i + 1, result + Digit(s[i], 7 * i))
  {
    assert Unfold(0);
    DigitAdded(s, i, s[i]);
    assert i < 9 && forall j :: 0 <= j < i + 1 ==> s[j] >= 128;
  }

  lemma OpenDone(s: seq<u8>, i: nat, result: nat)
    requires Open(s, i, result) && i < |s| && !TooLong(7 * i, s[i]) && s[i] < 0x80
    ensures ReadVarint(s) == Some((result + Digit(s[i], 7 * i), i + 1)) && result + Digit(s[i], 7 * i) < TWO64
  {
    assert Unfold(0);
    DigitAdded(s, i, s[i]);
    ExtentIs(s, i + 1);
    assert s[..i] + [s[i]] == s[..i + 1];
    Fits64(s[..i], s[i]);
  }

  method DecodeVarint(stream: IStream) returns (ok: bool, dest: nat)
    requires stream.Valid()
    modifies stream
    ensures stream.Decoded(ok, dest, ReadVarint(old(stream.rest)))
    ensures ok ==> dest < TWO64
  {
    ghost var s := stream.rest;
    var bitpos: nat, result: nat := 0, 0;
    ghost var i := 0;
    OpenStart(s);
    while true
      invariant stream.Valid() && stream.Took(i) && i <= 9 && bitpos == 7 * i && Open(s, i, result)
      decreases 10 - i
    {
      var more, byte := stream.ReadByte();
      if !more { OpenEnds(s, i, result); return false, 0; }
      if TooLong(bitpos, byte) { OpenTooLong(s, i, result); return false, 0; }
      if byte < 0x80 { OpenDone(s, i, result); } else { OpenNext(s, i, result); }
      result := result + Digit(byte, bitpos);
      bitpos := bitpos + 7;
      i := i + 1;
      if byte < 0x80 { return true, result; }
    }
  }

  lemma {:induction false} Fits64(s: seq<u8>, b: u8)
    requires |s| <= 9 && (|s| == 9 ==> b <= 1)
    ensures Base128(s + [b]) < TWO64
  {
    Base128Snoc(s, b);
    TopOf64(|s|);
    SumFits(Base128(s), Pow2(7 * |s|), b, |s| == 9);
  }

  lemma SumFits(x: nat, p: nat, b: u8, last: bool)
    requires x < p && (last ==> b <= 1 && p == 0x8000_0000_0000_0000) && (!last ==> 128 * p <= 0x8000_0000_0000_0000)
    ensures x + b % 128 * p < TWO64
  {
    if last {
      if b == 1 { assert b % 128 * p == p; }
    } else {
      NoGap2(p, b % 128, 127);
    }
  }

  lemma TopOf64(n: nat)
    requires n <= 9
    ensures n < 9 ==> 128 * Pow2(7 * n) <= 0x8000_0000_0000_0000
    ensures n == 9 ==> Pow2(7 * n) == 0x8000_0000_0000_0000
  {
    var all := 63;
    assert Pow2(all) == 0x8000_0000_0000_0000 && Pow2(7) == 128 by { Pow2Constants(); }
    if n < 9 {
      Pow2Add(7, 7 * n);
      Pow2Mono(7 * n + 7, all);
    }
  }

  /** From the fifth byte on, the low 32 bits are settled. */
  lemma {:induction false} LowSettled(s: seq<u8>, n: nat)
    requires 5 <= n <= |s|
    ensures Base128(s[..n]) % TWO32 == Base128(s[..5]) % TWO32
  {
    if n > 5 {
      LowSettled(s, n - 1);
      assert s[..n] == s[..n - 1] + [s[n - 1]];
      Base128Snoc(s[..n - 1], s[n - 1]);
      assert 7 * (n - 1) == 32 + (7 * (n - 1) - 32);
      Pow2Add(32, 7 * (n - 1) - 32);
      assert Pow2(32) == TWO32 by { Pow2Constants(); }
      MultipleOf32(Base128(s[..n - 1]), s[n - 1] % 128, Pow2(7 * (n - 1) - 32));
    }
  }

  lemma {:induction false} MultipleOf32(x: nat, g: nat, q: nat)
    ensures (x + g * (TWO32 * q)) % TWO32 == x % TWO32
  {
    var m := g * q;
    assert g * (TWO32 * q) == TWO32 * m;
  }

  /** Four bits at position 28. */
  function Nibble(b: int): int { b % 0x10 * 0x1000_0000 }

  lemma {:induction false} FifthByte(s: seq<u8>)
    requires |s| >= 5
    ensures Base128(s[..4]) < 0x1000_0000
    ensures Base128(s[..5]) % TWO32 == Base128(s[..4]) + Nibble(s[4])
  {
    assert s[..5] == s[..4] + [s[4]];
    Base128Snoc(s[..4], s[4]);
    var k := 28;
    assert Pow2(7 * |s[..4]|) == Pow2(k) == 0x1000_0000 by { Pow2Constants(); }
    assert Base128(s[..5]) == Base128(s[..4]) + 0x1000_0000 * (s[4] as int % 128);
    NibbleOf(Base128(s[..4]), s[4]);
  }

  lemma NibbleOf(x: nat, b: u8)
    requires x < 0x1000_0000
    ensures (x + 0x1000_0000 * (b % 128)) % TWO32 == x + Nibble(b)
  {
    var g: int, h: int := b % 128, b % 128 / 16;
    assert g == 16 * h + g % 16 && g % 16 == b % 16;
    DivUnique(x + 0x1000_0000 * g, TWO32, h, x + Nibble(b));
  }

  /** The value of a group that is not the fifth or later. */
  lemma {:induction false} EarlyByte(s: seq<u8>, i: nat)
    requires i < |s| && i < 4
    ensures Base128(s[..i + 1]) == Base128(s[..i]) + s[i] % 128 * Pow2(7 * i) < 0x1000_0000
  {
    assert s[..i + 1] == s[..i] + [s[i]];
    Base128Snoc(s[..i], s[i]);
    Base128Snoc(s[..i + 1], 0);
    var k := 28;
    assert Pow2(k) == 0x1000_0000 by { Pow2Constants(); }
    Pow2Mono(7 * (i + 1), k);
  }

  /** The conditions pb_decode_varint32 has checked when it has read i bytes. */
  ghost predicate Narrow(s: seq<u8>, i: nat, result: nat) {
    forall u {:trigger Unfold(u)} :: u == 0 ==>
      && i <= |s| && result == Base128(s[..i]) % TWO32
      && (i >= 5 ==> (s[4] / 16) % 8 == 0 || (s[4] / 8) % 16 == 15)
      && forall j :: 5 <= j < i ==> SignExtension(j, s[j], result >= 0x8000_0000)
  }

  // One more byte, as the loop of pb_decode_varint32 takes it; the error branches are exactly those
  // on which the specification fails.

  lemma NarrowStart(s: seq<u8>)
    ensures Narrow(s, 0, 0)
  {
    assert Base128(s[..0]) == 0;
  }

  /** The check of the later bytes as the source writes it. */
  lemma ExtensionCheck(i: nat, byte: u8, result: nat)
    requires i >= 5 && result < TWO32
    ensures (i < 10 && SignExtension(i, byte, result >= 0x8000_0000))
       <==> 7 * i < 64 && (byte % 0x80 == 0
                           || (result / 0x8000_0000 != 0 && byte == if 7 * i < 63 then 0xFF else 0x01))
  {}

  lemma NarrowResult(s: seq<u8>, i: nat, result: nat)
    requires Narrow(s, i, result)
    ensures result < TWO32
  {
    assert Unfold(0);
  }

  lemma {:induction false} NarrowEarly(s: seq<u8>, i: nat, result: nat)
    requires i < |s| && i < 4 && Narrow(s, i, result)
    ensures Narrow(s, i + 1, result + Digit(s[i], 7 * i))
  {
    assert Unfold(0);
    var x := Base128(s[..i]);
    assert x < 0x1000_0000 by { if i > 0 { EarlyByte(s, i - 1); } }
    assert result == x;
    EarlyByte(s, i);
  }

  lemma {:induction false} NarrowFifth(s: seq<u8>, result: nat)
    requires 4 < |s| && Narrow(s, 4, result)
    requires forall j :: 0 <= j < 4 ==> s[j] >= 128
    ensures BadFifth(s[4]) ==> ReadVarint32(s).None?
    ensures !BadFifth(s[4]) ==> Narrow(s, 5, result + Nibble(s[4]))
  {
    assert Unfold(0);
    RunsOn(s, 4);
    FifthByte(s);
  }

  lemma {:induction false} NarrowLate(s: seq<u8>, i: nat, result: nat)
    requires 5 <= i < |s| && i <= 10 && Narrow(s, i, result)
    requires forall j :: 0 <= j < i ==> s[j] >= 128
    ensures i < 10 && SignExtension(i, s[i], result >= 0x8000_0000) ==> Narrow(s, i + 1, result)
    ensures !(i < 10 && SignExtension(i, s[i], result >= 0x8000_0000)) ==> ReadVarint32(s).None?
  {
    assert Unfold(0);
    RunsOn(s, i);
    LowSettled(s, i);
    LowSettled(s, i + 1);
    var e := Extent(s);
    if e.Some? { LowSettled(s, e.value); }
  }

  lemma {:induction false} NarrowDone(s: seq<u8>, i: nat, result: nat)
    requires 1 <= i <= |s| && i <= 10 && Narrow(s, i, result) && s[i - 1] < 128
    requires forall j :: 0 <= j < i - 1 ==> s[j] >= 128
    ensures ReadVarint32(s) == Some((result, i)) && result < TWO32
  {
    assert Unfold(0);
    ExtentIs(s, i);
  }

  method DecodeVarint32(stream: IStream) returns (ok: bool, dest: u32)
    requires stream.Valid()
    modifies stream
    ensures stream.Decoded(ok, dest, ReadVarint32(old(stream.rest)))
  {
    ghost var s := stream.rest;
    var more, byte := stream.ReadByte();
    if !more { return false, 0; }
    var result: int := byte % 0x80;
    NarrowStart(s);
    NarrowEarly(s, 0, 0);
    ghost var i := 1;
    if byte >= 0x80 {
      var bitpos := 7;
      while byte >= 0x80
        invariant stream.Valid() && stream.Took(i) && 1 <= i <= 10 && bitpos == 7 * i
        invariant byte == s[i - 1] && forall j :: 0 <= j < i - 1 ==> s[j] >= 128
        invariant result >= 0 && Narrow(s, i, result)
        decreases 11 - i
      {
        RunsOn(s, i);
        more, byte := stream.ReadByte();
        if !more { return false, 0; }
        assert byte == s[i];
        if bitpos >= 32 {
          NarrowLate(s, i, result);
          NarrowResult(s, i, result);
          ExtensionCheck(i, byte, result);
          var signExtension := if bitpos < 63 then 0xFF else 0x01;
          var validExtension := byte % 0x80 == 0 || (result / 0x8000_0000 != 0 && byte == signExtension);
          if bitpos >= 64 || !validExtension { return false, 0; }
        } else if bitpos == 28 {
          NarrowFifth(s, result);
          if BadFifth(byte) { return false, 0; }
          result := result + Nibble(byte);
        } else {
          NarrowEarly(s, i, result);
          result := result + Digit(byte, bitpos);
        }
        bitpos := bitpos + 7;
        i := i + 1;
      }
    }
    NarrowDone(s, i, result);
    dest, ok := result, true;
  }

  method DecodeSvarint(stream: IStream) returns (ok: bool, dest: int)
    requires stream.Valid()
    modifies stream
    ensures stream.Decoded(ok, dest, MapFirst(ReadVarint(old(stream.rest)), UnZigZag))
    ensures ok ==> -0x8000_0000_0000_0000 <= dest < 0x8000_0000_0000_0000
  {
    var value;
    ok, value := DecodeVarint(stream);
    if !ok { return false, 0; }
    if value % 2 == 1 {
      dest := ToI64(TWO64 - 1 - value / 2);
    } else {
      dest := ToI64(value / 2);
    }
  }

  /** The signed reading of a 64-bit word. */
  function ToI64(v: nat): int { if v >= 0x8000_0000_0000_0000 then v - TWO64 else v }

  function MapFirst<A, B>(r: Option<(A, nat)>, f: A -> B): Option<(B, nat)> {
    match r case None => None case Some((a, n)) => Some((f(a), n))
  }

  function ReadFixed(s: seq<u8>, width: nat): Option<(nat, nat)> {
    if |s| < width then None else Some((LeValue(s[..width]), width))
  }

  function Word32(b0: int, b1: int, b2: int, b3: int): int {
    b0 + 0x100 * b1 + 0x1_0000 * b2 + 0x100_0000 * b3
  }

  method DecodeFixed32(stream: IStream) returns (ok: bool, dest: nat)
    requires stream.Valid()
    modifies stream
    ensures stream.Decoded(ok, dest, ReadFixed(old(stream.rest), 4))
  {
    var b;
    ok, b := stream.Read(4);
    if !ok { return false, 0; }
    dest := Word32(b[0], b[1], b[2], b[3]);
    LeValueOf4(b);
    assert b[4..] == [];
  }

  method DecodeFixed64(stream: IStream) returns (ok: bool, dest: nat)
    requires stream.Valid()
    modifies stream
    ensures stream.Decoded(ok, dest, ReadFixed(old(stream.rest), 8))
  {
    var b;
    ok, b := stream.Read(8);
    if !ok { return false, 0; }
    dest := Word32(b[0], b[1], b[2], b[3]) + TWO32 * Word32(b[4], b[5], b[6], b[7]);
    LeValueOf4(b);
    LeValueOf4(b[4..]);
    assert b[4..][4..] == [];
  }

  lemma {:induction false} LeValueOf4(b: seq<u8>)
    requires |b| >= 4
    ensures LeValue(b) == Word32(b[0], b[1], b[2], b[3]) + TWO32 * LeValue(b[4..])
  {
    assert b[1..][1..] == b[2..] && b[2..][1..] == b[3..] && b[3..][1..] == b[4..];
    assert LeValue(b) == b[0] + 0x100 * LeValue(b[1..]);
    assert LeValue(b[1..]) == b[1] + 0x100 * LeValue(b[2..]);
    assert LeValue(b[2..]) == b[2] + 0x100 * LeValue(b[3..]);
    assert LeValue(b[3..]) == b[3] + 0x100 * LeValue(b[4..]);
  }

  // ---- Tags and skipping -----------------------------------------------------------------------

  const WT_VARINT := 0
  const WT_64BIT := 1
  const WT_STRING := 2
  const WT_32BIT := 5
  /** Not on the wire: an element inside a packed array. */
  const WT_PACKED := 255

  datatype Tag = Tag(number: nat, wireType: nat)

  function ReadTag(s: seq<u8>): Option<(Tag, nat)> {
    match ReadVarint32(s) case None => None case Some((v, n)) => Some((Tag(v / 8, v % 8), n))
  }

  function TagBytes(t: Tag): seq<u8> { VarintBytes(t.number * 8 + t.wireType) }

  lemma {:induction false} TagRoundTrip(t: Tag, rest: seq<u8>)
    requires t.number < 0x2000_0000 && t.wireType < 8
    ensures ReadTag(TagBytes(t) + rest) == Some((t, |TagBytes(t)|))
  {
    var v: u32 := t.number * 8 + t.wireType;
    assert ReadVarint32(VarintBytes(v) + rest) == Some((v, |VarintBytes(v)|)) by { Varint32RoundTrip(v, rest); }
    assert v / 8 == t.number && v % 8 == t.wireType;
  }

  method EncodeTag(stream: OStream, wireType: nat, fieldNumber: u32) returns (ok: bool)
    requires stream.Valid() && wireType < 8
    modifies stream, stream.sink
    ensures stream.Emitted(ok, Some(TagBytes(Tag(fieldNumber, wireType))))
  {
    ok := EncodeVarint(stream, fieldNumber * 8 + wireType);
  }

  /** eof: there was nothing left to read. */
  method DecodeTag(stream: IStream) returns (ok: bool, tag: Tag, eof: bool)
    requires stream.Valid()
    modifies stream
    ensures stream.Decoded(ok, tag, if old(stream.bytesLeft) == 0 then None else ReadTag(old(stream.rest)))
    ensures eof == (old(stream.bytesLeft) == 0) && (eof ==> unchanged(stream))
  {
    eof, tag := false, Tag(0, 0);
    if stream.bytesLeft == 0 { return false, tag, true; }
    var temp;
    ok, temp := DecodeVarint32(stream);
    if !ok { return; }
    tag := Tag(temp / 8, temp % 8);
  }

  /** The number of bytes a field of the given wire type occupies after its tag. */
  function FieldExtent(wireType: nat, s: seq<u8>): (r: Option<nat>)
    ensures r.Some? ==> 1 <= r.value <= |s|
  {
    if wireType == WT_VARINT then Extent(s)
    else if wireType == WT_64BIT then if |s| >= 8 then Some(8) else None
    else if wireType == WT_STRING then
      match ReadVarint32(s)
      case None => None
      case Some((size, n)) => if size <= |s| - n then Some(n + size) else None
    else if wireType == WT_32BIT then if |s| >= 4 then Some(4) else None
    else None
  }

  function Unit(r: Option<nat>): Option<((), nat)> {
    match r case None => None case Some(n) => Some(((), n))
  }

  method SkipVarint(stream: IStream) returns (ok: bool)
    requires stream.Valid()
    modifies stream
    ensures stream.Decoded(ok, (), Unit(Extent(old(stream.rest))))
  {
    ghost var s := stream.rest;
    ghost var i := 0;
    while true
      invariant stream.Valid() && stream.Took(i)
      invariant forall j :: 0 <= j < i ==> s[j] >= 128
      decreases stream.bytesLeft
    {
      RunsOn(s, i);
      var more, b := stream.Read(1);
      if !more { return false; }
      assert b[0] == s[i];
      i := i + 1;
      if b[0] < 0x80 {
        ExtentIs(s, i);
        return true;
      }
    }
  }

  method SkipString(stream: IStream) returns (ok: bool)
    requires stream.Valid()
    modifies stream
    ensures stream.Decoded(ok, (), Unit(FieldExtent(WT_STRING, old(stream.rest))))
  {
    var length;
    ok, length := DecodeVarint32(stream);
    if !ok { return; }
    var data;
    ok, data := stream.Read(length);
  }

  method SkipField(stream: IStream, wireType: nat) returns (ok: bool)
    requires stream.Valid()
    modifies stream
    ensures stream.Decoded(ok, (), Unit(FieldExtent(wireType, old(stream.rest))))
  {
    var data;
    if wireType == WT_VARINT { ok := SkipVarint(stream); }
    else if wireType == WT_64BIT { ok, data := stream.Read(8); }
    else if wireType == WT_STRING { ok := SkipString(stream); }
    else if wireType == WT_32BIT { ok, data := stream.Read(4); }
    else { ok := false; }
  }

  // ---- Length-limited substreams -----------------------------------------------------------------

  /** The bytes of a length-prefixed block, and how much it takes in all. */
  function ReadBlock(s: seq<u8>): (r: Option<(seq<u8>, nat)>)
    ensures r.Some? ==> 1 <= r.value.1 <= |s| && |r.value.0| < r.value.1
  {
    match ReadVarint32(s)
    case None => None
    case Some((size, n)) => if size <= |s| - n then Some((s[n..n + size], n + size)) else None
  }

  lemma ReadBlockOf(s: seq<u8>, c: seq<u8>, b: seq<u8>, rest: seq<u8>)
    requires s == c + (b + rest) && ReadVarint32(s) == Some((|b|, |c|))
    ensures |c| <= |s| && ReadBlock(s) == Some((b, |c| + |b|))
  {
    assert s[|c|..] == b + rest;
    assert s[|c|..|c| + |b|] == b;
  }

  lemma Small64(n: nat)
    requires n < TWO64
    ensures n % TWO64 == n
  {}

  lemma PrefixedIs(b: seq<u8>)
    requires |b| < TWO64
    ensures LengthPrefixed(b) == VarintBytes(|b|) + b
  {
    Small64(|b|);
  }

  lemma BlockRoundTrip(b: seq<u8>, rest: seq<u8>)
    requires |b| < TWO32
    ensures ReadBlock(LengthPrefixed(b) + rest) == Some((b, |LengthPrefixed(b)|))
  {
    PrefixedIs(b);
    var c := VarintBytes(|b|);
    var s := LengthPrefixed(b) + rest;
    assert s == c + (b + rest);
    Varint32RoundTrip(|b|, b + rest);
    ReadBlockOf(s, c, b, rest);
  }

  lemma SliceOfSlice(s: seq<u8>, lo: nat, hi: nat, i: nat, j: nat)
    requires lo <= hi <= |s| && i <= j <= hi - lo
    ensures s[lo..hi][i..j] == s[lo + i..lo + j]
  {
    var a, b, c := s[lo..hi], s[lo..hi][i..j], s[lo + i..lo + j];
    assert |b| == |c|;
    forall k | 0 <= k < |b| ensures b[k] == c[k] { assert b[k] == a[i + k] == s[lo + i + k]; }
    assert b == c;
  }

  lemma TakeOfDrop(s: seq<u8>, n: nat, k: nat)
    requires n <= |s|
    ensures n + k <= |s| ==> s[n..][..k] == s[n..n + k]
  {}

  /** The substream starts where the parent stands; the parent already gives its bytes up, but moves its
      position only when the substream is closed. */
  method MakeStringSubstream(stream: IStream) returns (ok: bool, sub: IStream)
    requires stream.Valid()
    modifies stream
    ensures fresh(sub)
    ensures stream.Valid() && sub.Valid() && sub.buf == stream.buf
    ensures ok <==> ReadBlock(old(stream.rest)).Some?
    ensures stream.state + stream.bytesLeft <= old(stream.state + stream.bytesLeft)
    ensures ok ==> var (b, n) := ReadBlock(old(stream.rest)).value;
                   && sub.rest == b && sub.bytesLeft == |b| && sub.state == stream.state == old(stream.state) + n - |b|
                   && stream.bytesLeft == old(stream.bytesLeft) - n
  {
    var size;
    ok, size := DecodeVarint32(stream);
    sub := new IStream(stream.buf, stream.state, stream.bytesLeft);
    if !ok { return; }
    if sub.bytesLeft < size { return false, sub; }
    sub.bytesLeft := size;
    sub.rest := stream.rest[..size];
    SliceOfSlice(stream.buf, stream.state, stream.state + stream.bytesLeft, 0, size);
    stream.bytesLeft := stream.bytesLeft - size;
    stream.rest := stream.buf[stream.state..stream.state + stream.bytesLeft];
  }

  /** Closing moves the parent past the block. */
  method CloseStringSubstream(stream: IStream, sub: IStream) returns (ok: bool)
    requires stream.Valid() && sub.Valid() && sub != stream && sub.buf == stream.buf
    requires sub.state + sub.bytesLeft + stream.bytesLeft <= |stream.buf|
    modifies stream, sub
    ensures ok && stream.Valid() && stream.bytesLeft == old(stream.bytesLeft)
    ensures stream.state == old(sub.state + sub.bytesLeft)
    ensures stream.rest == stream.buf[stream.state..stream.state + stream.bytesLeft]
  {
    if sub.bytesLeft != 0 {
      var data;
      ok, data := sub.Read(sub.bytesLeft);
      if !ok { return false; }
    }
    stream.state := sub.state;
    stream.rest := stream.buf[stream.state..stream.state + stream.bytesLeft];
    ok := true;
  }
}
