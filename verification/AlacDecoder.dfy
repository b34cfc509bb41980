/** Frames and channels of the ALAC decoder (decode_frame in common/libraop/src/alac.c): uncompressed stereo frames
    of 16-bit samples against the writer of AlacRaw, and compressed channels against the encoders of AlacRice and
    AlacFir. */
module AlacDecoder {
  import opened Words
  import opened AlacBits
  import AlacFir
  import AlacRaw
  import AlacRice

  // ----- Uncompressed frames -----

  /** The header of an uncompressed stereo frame of n sample pairs: 3 bits of channels, 16 bits skipped, whether the
      size is stated, the shift, and the flag for uncompressed. Without a size it is the decoder's maximum. */
  ghost predicate RawHeader(m: Memory, hassize: nat, n: nat, maxSamples: nat) {
    && Reads(m, 0, 3, 1) && Reads(m, 19, 1, hassize) && Reads(m, 22, 1, 1)
    && if hassize != 0 then Reads(m, 23, 32, n) else n == maxSamples
  }

  function Start(hassize: nat): nat { if hassize != 0 then 55 else 23 }

  /** out holds the pairs that are 16 bits wide from bit start on, left sample first. */
  ghost predicate Holds(m: Memory, start: nat, out: seq<int>, n: nat) {
    |out| >= 2 * n && forall i {:trigger out[i]} :: 0 <= i < 2 * n ==> ReadsSigned(m, start + 16 * i, out[i])
  }

  ghost predicate ReadsSigned(m: Memory, p: nat, x: int) {
    exists v: nat :: Reads(m, p, 16, v) && x == AlacFir.SignExtended(v, 16)
  }

  /** How far the reader has looked after i pairs. */
  function Reach(start: nat, i: nat): nat {
    if i == 0 || start + 32 * i < 16 then 8 else Max(8, (start + 32 * i - 16) / 8 + 3)
  }

  /** decode_frame, for such a frame: returns the number of sample pairs. */
  method DecodeRawFrame(r: BitReader, ghost hassize: nat, ghost n: nat, maxSamples: nat, out: array<int>)
    returns (samples: nat)
    requires r.Valid() && r.Cursor() == 0 && r.reach == 0 && RawHeader(r.memory, hassize, n, maxSamples)
    requires n <= maxSamples && 2 * n <= out.Length
    modifies r, out
    ensures samples == n && Holds(r.memory, Start(hassize), out[..], n)
    ensures r.reach <= Reach(Start(hassize), n)
  {
    samples := ReadHeader(r, hassize, n, maxSamples);
    var bufferA, bufferB := new int[maxSamples], new int[maxSamples];
    var i := 0;
    while i < samples
      invariant 0 <= i <= samples && r.Valid() && r.Cursor() == Start(hassize) + 32 * i
      invariant r.reach <= Reach(Start(hassize), i)
      invariant forall k {:trigger bufferA[k]} :: 0 <= k < i ==>
            ReadsSigned(r.memory, Start(hassize) + 32 * k, bufferA[k])
      invariant forall k {:trigger bufferB[k]} :: 0 <= k < i ==>
            ReadsSigned(r.memory, Start(hassize) + 32 * k + 16, bufferB[k])
    {
      var audiobitsA := r.ReadBits(16);
      var audiobitsB := r.ReadBits(16);
      bufferA[i] := AlacFir.SignExtended(audiobitsA, 16);
      bufferB[i] := AlacFir.SignExtended(audiobitsB, 16);
      assert ReadsSigned(r.memory, Start(hassize) + 32 * i, bufferA[i]);
      assert ReadsSigned(r.memory, Start(hassize) + 32 * i + 16, bufferB[i]);
      i := i + 1;
    }
    Deinterlace(bufferA, bufferB, out, samples);
    HoldsPairs(r.memory, Start(hassize), out[..], bufferA[..], bufferB[..], n);
  }

  method ReadHeader(r: BitReader, ghost hassize: nat, ghost n: nat, maxSamples: nat) returns (samples: nat)
    requires r.Valid() && r.Cursor() == 0 && r.reach == 0 && RawHeader(r.memory, hassize, n, maxSamples)
    modifies r
    ensures r.Valid() && samples == n && r.Cursor() == Start(hassize) && r.reach <= 8
  {
    var channels := r.ReadBits(3);
    samples := maxSamples;
    var skipped := r.ReadBits(4);
    skipped := r.ReadBits(12);
    var has := r.ReadBits(1);
    ReadsOne(r.memory, 19, 1, has, hassize);
    var shift := r.ReadBits(2);
    var isnotcompressed := r.ReadBits(1);
    ReadsOne(r.memory, 22, 1, isnotcompressed, 1);
    if has != 0 {
      samples := r.ReadBits(32);
      ReadsOne(r.memory, 23, 32, samples, n);
    }
  }

  /** deinterlace_16 without a weight, for two channels. */
  method Deinterlace(bufferA: array<int>, bufferB: array<int>, out: array<int>, samples: nat)
    requires samples <= bufferA.Length && samples <= bufferB.Length && 2 * samples <= out.Length
    requires out != bufferA && out != bufferB
    modifies out
    ensures forall i {:trigger bufferA[i]} :: 0 <= i < samples ==> out[2 * i] == bufferA[i]
    ensures forall i {:trigger bufferB[i]} :: 0 <= i < samples ==> out[2 * i + 1] == bufferB[i]
  {
    var i := 0;
    while i < samples
      invariant 0 <= i <= samples
      invariant forall k {:trigger bufferA[k]} :: 0 <= k < i ==> out[2 * k] == bufferA[k]
      invariant forall k {:trigger bufferB[k]} :: 0 <= k < i ==> out[2 * k + 1] == bufferB[k]
    {
      out[i * 2] := bufferA[i];
      out[i * 2 + 1] := bufferB[i];
      i := i + 1;
    }
  }

  lemma HoldsPairs(m: Memory, start: nat, out: seq<int>, a: seq<int>, b: seq<int>, n: nat)
    requires |out| >= 2 * n && |a| >= n && |b| >= n
    requires forall i {:trigger a[i]} :: 0 <= i < n ==> out[2 * i] == a[i] && ReadsSigned(m, start + 32 * i, a[i])
    requires forall i {:trigger b[i]} :: 0 <= i < n ==>
               out[2 * i + 1] == b[i] && ReadsSigned(m, start + 32 * i + 16, b[i])
    ensures Holds(m, start, out, n)
  {
    forall i | 0 <= i < 2 * n ensures ReadsSigned(m, start + 16 * i, out[i]) {
      var k := i / 2;
      if i % 2 == 0 { assert out[2 * k] == a[k]; } else { assert out[2 * k + 1] == b[k]; }
    }
  }

  // ----- The raw round trip -----

  lemma InByte(m: Memory, i: nat, a: nat, n: nat, v: nat)
    requires a + n <= 8 && v == m(i) / Pow2(8 - (a + n)) % Pow2(n)
    ensures Reads(m, 8 * i + a, n, v)
  {
    TopBits(m, i, a + n);
    NumberJoined(m, 8 * i, a, n);
    LastDigits(Number(m, 8 * i, a + n), Number(m, 8 * i, a), Pow2(n), Number(m, 8 * i + a, n));
  }

  lemma LastDigits(x: nat, h: nat, d: nat, y: nat)
    requires d > 0 && Joined(x, h, d, y)
    ensures x % d == y
  {
    assert Unfold(0);
    DivUnique(x, d, h, y);
  }

  /** The frame of the writer has a header that the reader accepts. */
  lemma WrittenHeader(m: Memory, b: AlacRaw.Block, maxSamples: nat)
    requires b.Valid() && AlacRaw.Holds(m, b)
    ensures RawHeader(m, 1, b.bsize, maxSamples)
  {
    assert m(0) == b.Closed(0) && m(2) == b.Closed(2);
    AlacRaw.HalfBound(b, 0);
    HeaderBits(m, b.Half(0) / 0x8000);
    SizeReads(m, b);
  }

  lemma HeaderBits(m: Memory, top: nat)
    requires m(0) == 0x20 && m(2) == 0x12 + top && top <= 1
    ensures Reads(m, 0, 3, 1) && Reads(m, 19, 1, 1) && Reads(m, 22, 1, 1)
  {
    assert Pow2(0) == 1 && Pow2(1) == 2 && Pow2(3) == 8 && Pow2(4) == 16 && Pow2(5) == 32;
    InByte(m, 0, 0, 3, 1);
    InByte(m, 2, 3, 1, 1);
    InByte(m, 2, 6, 1, 1);
  }

  lemma SizeReads(m: Memory, b: AlacRaw.Block)
    requires b.Valid() && AlacRaw.Holds(m, b)
    ensures Reads(m, 23, 32, b.bsize)
  {
    AlacRaw.HalfReads(m, b, 0);
    AlacRaw.HalfReads(m, b, 1);
    Pow2Bytes(8, 16, 24);
    ReadsJoined(m, 23, 16, b.bsize / 0x1_0000, 16, b.bsize % 0x1_0000, b.bsize);
  }

  /** A pair of 16-bit samples as the 32-bit word it is in memory. */
  function Word(left: int, right: int): int { left % 0x1_0000 + 0x1_0000 * (right % 0x1_0000) }

  lemma SignedHalf(v: nat, n: nat)
    requires v < 0x1_0000 && n == 16
    ensures AlacFir.SignExtended(v, n) % 0x1_0000 == v
  {
    var k := AlacFir.SignExtendedIs(v, n);
    Pow2Bytes(8, n, 24);
    AlacFir.SameRemainder(v, k, 0x1_0000);
  }

  /** What the reader returns for the writer's frame: the pairs taken, then silence. */
  lemma PairReturned(m: Memory, b: AlacRaw.Block, out: seq<int>, i: nat)
    requires b.Valid() && AlacRaw.Holds(m, b) && Holds(m, 55, out, b.bsize) && i < b.bsize
    ensures Word(out[2 * i], out[2 * i + 1]) == b.Pair(i)
  {
    HalfReturned(m, b, out, 2 * i);
    HalfReturned(m, b, out, 2 * i + 1);
    AlacRaw.PairHalves(b, i);
  }

  lemma HalfReturned(m: Memory, b: AlacRaw.Block, out: seq<int>, j: nat)
    requires b.Valid() && AlacRaw.Holds(m, b) && Holds(m, 55, out, b.bsize) && j < 2 * b.bsize
    ensures out[j] % 0x1_0000 == b.Half(2 + j)
  {
    assert ReadsSigned(m, 55 + 16 * j, out[j]);
    var v: nat :| Reads(m, 55 + 16 * j, 16, v) && out[j] == AlacFir.SignExtended(v, 16);
    AlacRaw.HalfReads(m, b, 2 + j);
    ReadsOne(m, 55 + 16 * j, 16, v, b.Half(2 + j));
    AlacRaw.HalfBound(b, 2 + j);
    SignedHalf(v, 16);
  }

  /** The writer and then the reader: the same samples, then silence; whatever lies in memory after the bytes written,
      the reader looks at none of it. */
  method Recode(words: seq<u32>, frames: nat, bsize: nat, maxSamples: nat, beyond: Memory)
    returns (out: array<int>, samples: nat, ghost reach: nat)
    requires 1 <= frames <= |words| && 1 <= bsize <= maxSamples && 4 * bsize + 16 < 0x8000_0000
    ensures samples == bsize && out.Length == 2 * bsize && reach <= 4 * bsize + 8
    ensures forall i {:trigger out[2 * i]} :: 0 <= i < bsize ==>
              Word(out[2 * i], out[2 * i + 1]) == if i < frames then words[i] else 0
  {
    var bytes, size := AlacRaw.PcmToAlacRaw(words, frames, bsize);
    var written := bytes[..size];
    var m: Memory := (i: nat) => if i < |written| then written[i] else beyond(i);
    ghost var b := AlacRaw.Block(words, AlacRaw.Min(frames, bsize), bsize);
    assert AlacRaw.Holds(m, b);
    WrittenHeader(m, b, maxSamples);
    out := new int[2 * bsize];
    var r := new BitReader(m);
    samples := DecodeRawFrame(r, 1, bsize, maxSamples, out);
    reach := r.reach;
    forall i | 0 <= i < bsize ensures Word(out[2 * i], out[2 * i + 1]) == if i < frames then words[i] else 0 {
      PairReturned(m, b, out[..], i);
    }
  }

  // ----- Compressed channels -----

  /** The settings one channel is decoded with: the sample width is the same for both stages. */
  datatype Channel = Channel(fir: AlacFir.Setting, rice: AlacRice.Params, initialHistory: nat) {
    ghost predicate Valid() {
      fir.Valid() && rice.Valid() && fir.bits == rice.size && 1 <= initialHistory <= AlacRice.HISTORY_MAX
    }
  }

  /** The residuals of a mirrored encoder: the first sample, then what the predictor missed. */
  function ChannelResiduals(samples: seq<int>, coefs: seq<int>, s: AlacFir.Setting): seq<int>
    requires samples != [] && s.Valid() && s.num <= |coefs|
  {
    [samples[0]] + AlacFir.Residuals(AlacFir.Fir([samples[0]], coefs), s, samples[1..])
  }

  /** The bits of a channel. */
  function ChannelBits(samples: seq<int>, coefs: seq<int>, c: Channel): seq<nat>
    requires samples != [] && c.Valid() && c.fir.num <= |coefs|
  {
    AlacRice.Bits(ChannelResiduals(samples, coefs, c.fir), c.initialHistory, 0, AlacRice.RiceScheme(c.rice))
  }

  /** The samples of a channel of n samples at bit p, and the bit after it. */
  function ChannelDecoded(m: Memory, p: nat, n: nat, coefs: seq<int>, c: Channel): AlacRice.Values
    requires n > 0 && c.Valid() && c.fir.num <= |coefs|
  {
    var v := AlacRice.Decoded(m, p, n, c.initialHistory, 0, AlacRice.RiceScheme(c.rice));
    AlacRice.DecodedLength(m, p, n, c.initialHistory, 0, AlacRice.RiceScheme(c.rice));
    AlacRice.Values(AlacFir.Decoded(AlacFir.Fir([v.values[0]], coefs), c.fir, v.values[1..n]).out, v.next)
  }

  lemma {:induction false} ResidualsFit(f: AlacFir.Fir, s: AlacFir.Setting, samples: seq<int>)
    requires f.Valid(s) && forall i :: 0 <= i < |samples| ==> AlacFir.InRange(samples[i], s.bits)
    ensures |AlacFir.Residuals(f, s, samples)| == |samples|
    ensures forall i {:trigger AlacFir.Residuals(f, s, samples)[i]} :: 0 <= i < |samples| ==>
              AlacFir.InRange(AlacFir.Residuals(f, s, samples)[i], s.bits)
    decreases |samples|
  {
    if samples != [] {
      var err := AlacFir.Residual(f, s, samples[0]);
      if s.num != 0 { AlacFir.SignExtendedRange(samples[0] - AlacFir.Predicted(f, s), s.bits); }
      ResidualsFit(AlacFir.After(f, s, samples[0], err), s, samples[1..]);
    }
  }

  /** A number in range folds to a number of the same width. */
  lemma FoldFits(v: int, bits: nat)
    requires bits >= 1 && AlacFir.InRange(v, bits)
    ensures AlacRice.Fold(v) < Pow2(bits)
  {
    assert Pow2(bits) == 2 * Pow2(bits - 1);
  }

  /** Every block of samples that fits the width comes back from a compressed channel, for any starting coefficients
      and settings; the next channel is read where this one ends. */
  lemma ChannelLossless(m: Memory, p: nat, samples: seq<int>, coefs: seq<int>, c: Channel)
    requires c.Valid() && c.fir.num <= |coefs| && 1 <= |samples| <= 0x1_0000
    requires forall i :: 0 <= i < |samples| ==> AlacFir.InRange(samples[i], c.fir.bits)
    requires Carries(m, p, ChannelBits(samples, coefs, c))
    ensures ChannelDecoded(m, p, |samples|, coefs, c) == AlacRice.Values(samples, p + |ChannelBits(samples, coefs, c)|)
  {
    var f, rest := AlacFir.Fir([samples[0]], coefs), samples[1..];
    var residuals := ChannelResiduals(samples, coefs, c.fir);
    ResidualsFit(f, c.fir, rest);
    forall i | 0 <= i < |residuals| ensures AlacRice.Fold(residuals[i]) < Pow2(c.rice.size) {
      if i > 0 { assert residuals[i] == AlacFir.Residuals(f, c.fir, rest)[i - 1]; }
      FoldFits(residuals[i], c.fir.bits);
    }
    AlacRice.RiceLossless(m, p, residuals, c.initialHistory, c.rice);
    AlacFir.Lossless(f, c.fir, rest);
    assert residuals[1..|samples|] == AlacFir.Residuals(f, c.fir, rest);
    assert [samples[0]] + rest == samples;
  }

  /** The part of decode_frame for one channel: entropy_rice_decode, then the predictor. */
  method DecodeChannel(r: BitReader, outputSize: nat, c: Channel, coefTable: array<int>, bufferOut: array<int>)
    requires r.Valid() && c.Valid() && c.fir.num <= coefTable.Length && 1 <= outputSize <= bufferOut.Length
    requires (c.fir.num == 31 || outputSize > c.fir.num) && bufferOut != coefTable
    modifies r, coefTable, bufferOut
    ensures r.Valid() && AlacRice.Values(bufferOut[..outputSize], r.Cursor())
         == ChannelDecoded(r.memory, old(r.Cursor()), outputSize, old(coefTable[..]), c)
  {
    var values := AlacRice.EntropyRiceDecode(r, outputSize, c.initialHistory, c.rice);
    AlacRice.DecodedLength(r.memory, old(r.Cursor()), outputSize, c.initialHistory, 0, AlacRice.RiceScheme(c.rice));
    var errorBuffer := new int[|values|](i requires 0 <= i < |values| => values[i]);
    assert errorBuffer[..] == values;
    AlacFir.DecompressFirAdapt(errorBuffer, bufferOut, outputSize, c.fir, coefTable);
    assert errorBuffer[1..outputSize] == values[1..outputSize];
  }
}
