/** The adaptive FIR predictor of the ALAC decoder (predictor_decompress_fir_adapt in common/libraop/src/alac.c),
    with the predictor of an encoder that mirrors it. */
module AlacFir {
  import opened Words

  // ----- C integers -----

  function Wrap32(v: int): int { (v + 0x8000_0000) % 0x1_0000_0000 - 0x8000_0000 }

  function Wrap16(v: int): int { (v + 0x8000) % 0x1_0000 - 0x8000 }

  /** SIGN_EXTENDED32: the low bits of v as a signed number. */
  function SignExtended(v: int, bits: nat): int
    requires bits >= 1
  {
    (v + Pow2(bits - 1)) % Pow2(bits) - Pow2(bits - 1)
  }

  ghost predicate InRange(v: int, bits: nat)
    requires bits >= 1
  {
    0 <= v + Pow2(bits - 1) < Pow2(bits)
  }

  function Sign(v: int): int { if v < 0 then -1 else if v > 0 then 1 else 0 }

  // ----- The predictor -----

  /** The settings of one channel: sample width, number of coefficients, quantization. */
  datatype Setting = Setting(bits: nat, num: nat, quant: nat) {
    ghost predicate Valid() { 1 <= bits <= 32 && num <= 31 && quant >= 1 }
  }

  /** The samples so far and the coefficients. */
  datatype Fir = Fir(out: seq<int>, coefs: seq<int>) {
    ghost predicate Valid(s: Setting) { s.Valid() && |out| >= 1 && |coefs| >= s.num }
  }

  /** A sample after the first num + 1 is predicted from the num + 1 samples before it. */
  predicate General(s: Setting, i: nat) { s.num != 0 && s.num != 31 && i > s.num }

  /** The sum over the first j coefficients, in the window that starts at sample b. */
  function Sum(out: seq<int>, b: nat, num: nat, coefs: seq<int>, j: nat): int
    requires b + num < |out| && j <= num <= |coefs|
  {
    if j == 0 then 0
    else Wrap32(Sum(out, b, num, coefs, j - 1) + Wrap32(Wrap32(out[b + num - (j - 1)] - out[b]) * coefs[j - 1]))
  }

  /** The sum rounded and shifted, on top of the first sample of the window. */
  function Rounded(sum: int, first: int, quant: nat): int
    requires quant >= 1
  {
    Wrap32(Wrap32(Pow2(quant - 1) + sum) / Pow2(quant) + first)
  }

  /** What the next sample is compared with. */
  function Predicted(f: Fir, s: Setting): int
    requires s.Valid() && |f.out| >= 1 && |f.coefs| >= s.num
  {
    var i := |f.out|;
    if General(s, i) then
      var b := i - s.num - 1;
      Rounded(Sum(f.out, b, s.num, f.coefs, s.num), f.out[b], s.quant)
    else f.out[i - 1]
  }

  /** One adaptation step for coefficient k, in direction dir: the coefficient, and the error left. */
  function AdaptedCoef(coef: int, val: int, dir: int): int { Wrap16(coef - dir * Sign(val)) }

  function ErrorLeft(err: int, val: int, dir: int, quant: nat, weight: nat): int {
    Wrap32(err - Wrap32(Wrap32(val * (dir * Sign(val))) / Pow2(quant) * weight))
  }

  /** The coefficients below n adapted, from coefficient n - 1 down, as long as the error keeps its sign. */
  function Adapted(out: seq<int>, b: nat, s: Setting, coefs: seq<int>, err: int, dir: int, n: nat): seq<int>
    requires s.Valid() && b + s.num < |out| && n <= s.num <= |coefs|
    decreases n
  {
    if n == 0 || err * dir <= 0 then coefs
    else
      var k := n - 1;
      var val := Wrap32(out[b] - out[b + s.num - k]);
      Adapted(out, b, s, coefs[k := AdaptedCoef(coefs[k], val, dir)], ErrorLeft(err, val, dir, s.quant, s.num - k),
            dir, k)
  }

  lemma {:induction false} AdaptedLength(out: seq<int>, b: nat, s: Setting, coefs: seq<int>, err: int, dir: int, n: nat)
    requires s.Valid() && b + s.num < |out| && n <= s.num <= |coefs|
    ensures |Adapted(out, b, s, coefs, err, dir, n)| == |coefs|
    decreases n
  {
    if n > 0 && err * dir > 0 {
      var k := n - 1;
      var val := Wrap32(out[b] - out[b + s.num - k]);
      AdaptedLength(out, b, s, coefs[k := AdaptedCoef(coefs[k], val, dir)],
            ErrorLeft(err, val, dir, s.quant, s.num - k), dir, k);
    }
  }

  function Direction(err: int): int { if err > 0 then 1 else -1 }

  /** The coefficients after the residual err. */
  function Coefs(f: Fir, s: Setting, err: int): seq<int>
    requires f.Valid(s)
  {
    var i := |f.out|;
    if General(s, i) then Adapted(f.out, i - s.num - 1, s, f.coefs, err, Direction(err), s.num) else f.coefs
  }

  // ----- Decoding and encoding -----

  /** The sample a residual stands for. */
  function Sample(f: Fir, s: Setting, err: int): int
    requires f.Valid(s)
  {
    if s.num == 0 then err else SignExtended(Wrap32(Predicted(f, s) + err), s.bits)
  }

  function Decoded(f: Fir, s: Setting, errs: seq<int>): Fir
    requires f.Valid(s)
    decreases |errs|
  {
    if errs == [] then f
    else
      Decoded(After(f, s, Sample(f, s, errs[0]), errs[0]), s, errs[1..])
  }

  lemma AdaptedCoefsLength(f: Fir, s: Setting, err: int)
    requires f.Valid(s)
    ensures |Coefs(f, s, err)| == |f.coefs|
  {
    var i := |f.out|;
    if General(s, i) { AdaptedLength(f.out, i - s.num - 1, s, f.coefs, err, Direction(err), s.num); }
  }

  /** The residual a mirrored encoder sends for a sample. */
  function Residual(f: Fir, s: Setting, x: int): int
    requires f.Valid(s)
  {
    if s.num == 0 then x else SignExtended(x - Predicted(f, s), s.bits)
  }

  function Residuals(f: Fir, s: Setting, samples: seq<int>): seq<int>
    requires f.Valid(s)
    decreases |samples|
  {
    if samples == [] then []
    else
      var err := Residual(f, s, samples[0]);
      [err] + Residuals(After(f, s, samples[0], err), s, samples[1..])
  }

  /** The coefficients the encoder ends with. */
  function EncoderCoefs(f: Fir, s: Setting, samples: seq<int>): seq<int>
    requires f.Valid(s)
    decreases |samples|
  {
    if samples == [] then f.coefs
    else
      var err := Residual(f, s, samples[0]);
      EncoderCoefs(After(f, s, samples[0], err), s, samples[1..])
  }

  // ----- Lossless -----

  /** Remainders by d do not see multiples of d. */
  lemma SameRemainder(x: int, k: int, d: nat)
    requires d > 0
    ensures (x + k * d) % d == x % d
  {
    DivUnique(x + k * d, d, x / d + k, x % d);
  }

  lemma RemainderBound(x: int, d: int)
    requires d > 0
    ensures 0 <= x % d < d
  {}

  lemma SignExtendedRange(v: int, bits: nat)
    requires bits >= 1
    ensures InRange(SignExtended(v, bits), bits)
  {
    RemainderBound(v + Pow2(bits - 1), Pow2(bits));
  }

  /** SignExtended changes a number by a multiple of the range, and leaves a number in range alone. */
  lemma SignExtendedShift(v: int, k: int, bits: nat)
    requires bits >= 1
    ensures SignExtended(v + k * Pow2(bits), bits) == SignExtended(v, bits)
  {
    SameRemainder(v + Pow2(bits - 1), k, Pow2(bits));
    assert v + k * Pow2(bits) + Pow2(bits - 1) == v + Pow2(bits - 1) + k * Pow2(bits);
  }

  lemma SignExtendedIs(v: int, bits: nat) returns (k: int)
    requires bits >= 1
    ensures SignExtended(v, bits) == v + k * Pow2(bits)
  {
    k := -((v + Pow2(bits - 1)) / Pow2(bits));
  }

  lemma InRangeKept(v: int, bits: nat)
    requires bits >= 1 && InRange(v, bits)
    ensures SignExtended(v, bits) == v
  {
    DivUnique(v + Pow2(bits - 1), Pow2(bits), 0, v + Pow2(bits - 1));
  }

  lemma Wrap32Is(v: int, bits: nat) returns (k: int)
    requires bits <= 32
    ensures Wrap32(v) == v + k * Pow2(bits)
  {
    var q, a, b := -((v + 0x8000_0000) / 0x1_0000_0000), Pow2(32 - bits), Pow2(bits);
    Pow2Add(32 - bits, bits);
    Pow2Constants();
    k := q * a;
    Grouped(q, a, b);
    assert q * (a * b) == q * 0x1_0000_0000;
  }

  lemma Grouped(a: int, b: int, c: int)
    ensures (a * b) * c == a * (b * c)
  {}

  /** The residual of a sample in range brings the sample back, whatever was predicted. */
  lemma Recovered(p: int, x: int, bits: nat)
    requires 1 <= bits <= 32 && InRange(x, bits)
    ensures SignExtended(Wrap32(p + SignExtended(x - p, bits)), bits) == x
  {
    var j := SignExtendedIs(x - p, bits);
    var k := Wrap32Is(x + j * Pow2(bits), bits);
    SignExtendedShift(x, j + k, bits);
    Distributed(x, j, k, Pow2(bits));
    InRangeKept(x, bits);
  }

  lemma Distributed(x: int, j: int, k: int, d: int)
    ensures x + j * d + k * d == x + (j + k) * d
  {}

  lemma SampleRecovered(f: Fir, s: Setting, x: int)
    requires f.Valid(s) && InRange(x, s.bits)
    ensures Sample(f, s, Residual(f, s, x)) == x
  {
    if s.num != 0 { Recovered(Predicted(f, s), x, s.bits); }
  }

  /** The decoder after a residual, and the encoder after a sample. */
  function After(f: Fir, s: Setting, x: int, err: int): (g: Fir)
    requires f.Valid(s)
    ensures g.Valid(s)
  {
    AdaptedCoefsLength(f, s, err);
    Fir(f.out + [x], Coefs(f, s, err))
  }

  lemma DecodedStep(f: Fir, s: Setting, errs: seq<int>, k: nat)
    requires f.Valid(s) && k < |errs|
    ensures Decoded(f, s, errs[k..]) == Decoded(After(f, s, Sample(f, s, errs[k]), errs[k]), s, errs[k + 1..])
  {
    assert errs[k..][1..] == errs[k + 1..];
  }

  /** The decoder reproduces the samples, with the coefficients in lockstep. */
  lemma {:induction false} Lossless(f: Fir, s: Setting, samples: seq<int>)
    requires f.Valid(s) && forall i :: 0 <= i < |samples| ==> InRange(samples[i], s.bits)
    ensures Decoded(f, s, Residuals(f, s, samples)) == Fir(f.out + samples, EncoderCoefs(f, s, samples))
    decreases |samples|
  {
    if samples == [] {
      assert f.out + samples == f.out;
    } else {
      var x, rest := samples[0], samples[1..];
      var err := Residual(f, s, x);
      var g := After(f, s, x, err);
      SampleRecovered(f, s, x);
      Lossless(g, s, rest);
      assert ([err] + Residuals(g, s, rest))[1..] == Residuals(g, s, rest);
      assert g.out + rest == f.out + samples;
    }
  }

  // ----- The decoder in place -----

  /** The loop over the coefficients for one sample, for a residual of sign dir. */
  method Adapt(bufferOut: array<int>, b: nat, i: nat, s: Setting, coefTable: array<int>, errorVal: int, dir: int)
    requires s.Valid() && i == b + s.num + 1 < bufferOut.Length && s.num <= coefTable.Length && bufferOut != coefTable
    modifies coefTable
    ensures coefTable[..] == Adapted(bufferOut[..i], b, s, old(coefTable[..]), errorVal, dir, s.num)
  {
    var err, n := errorVal, s.num;
    ghost var out := bufferOut[..i];
    while n > 0 && err * dir > 0
      invariant 0 <= n <= s.num
      invariant Adapted(out, b, s, old(coefTable[..]), errorVal, dir, s.num)
            == Adapted(out, b, s, coefTable[..], err, dir, n)
    {
      var k := n - 1;
      var val := Wrap32(bufferOut[b] - bufferOut[b + s.num - k]);
      ghost var coefs := coefTable[..];
      coefTable[k] := AdaptedCoef(coefTable[k], val, dir);
      assert coefTable[..] == coefs[k := AdaptedCoef(coefs[k], val, dir)];
      err := ErrorLeft(err, val, dir, s.quant, s.num - k);
      n := k;
    }
  }

  /** The prediction loop for one sample. */
  method Predict(bufferOut: array<int>, b: nat, i: nat, s: Setting, coefTable: array<int>) returns (p: int)
    requires s.Valid() && i == b + s.num + 1 < bufferOut.Length && s.num <= coefTable.Length && General(s, i)
    ensures p == Predicted(Fir(bufferOut[..i], coefTable[..]), s)
  {
    var sum, j := 0, 0;
    while j < s.num
      invariant 0 <= j <= s.num && sum == Sum(bufferOut[..i], b, s.num, coefTable[..], j)
    {
      sum := Wrap32(sum + Wrap32(Wrap32(bufferOut[b + s.num - j] - bufferOut[b]) * coefTable[j]));
      j := j + 1;
    }
    p := Rounded(sum, bufferOut[b], s.quant);
  }

  /** The next sample and the coefficients after it. */
  method DecodeSample(err: int, bufferOut: array<int>, i: nat, s: Setting, coefTable: array<int>)
    requires s.Valid() && 1 <= i < bufferOut.Length && s.num <= coefTable.Length && bufferOut != coefTable
    modifies bufferOut, coefTable
    ensures var f := Fir(old(bufferOut[..i]), old(coefTable[..]));
            Fir(bufferOut[..i + 1], coefTable[..]) == After(f, s, Sample(f, s, err), err)
  {
    if s.num == 0 {
      bufferOut[i] := err;
    } else if s.num == 31 || i <= s.num {
      bufferOut[i] := SignExtended(Wrap32(bufferOut[i - 1] + err), s.bits);
    } else {
      var b := i - s.num - 1;
      var p := Predict(bufferOut, b, i, s, coefTable);
      bufferOut[i] := SignExtended(Wrap32(p + err), s.bits);
      assert bufferOut[..i] == old(bufferOut[..i]);
      Adapt(bufferOut, b, i, s, coefTable, err, Direction(err));
    }
  }

  /** predictor_decompress_fir_adapt. */
  method DecompressFirAdapt(errorBuffer: array<int>, bufferOut: array<int>, outputSize: nat, s: Setting,
        coefTable: array<int>)
    requires s.Valid() && s.num <= coefTable.Length && 1 <= outputSize <= errorBuffer.Length
    requires outputSize <= bufferOut.Length && (s.num == 31 || outputSize > s.num)
    requires bufferOut != errorBuffer && bufferOut != coefTable && coefTable != errorBuffer
    modifies bufferOut, coefTable
    ensures Fir(bufferOut[..outputSize], coefTable[..])
         == Decoded(Fir([errorBuffer[0]], old(coefTable[..])), s, errorBuffer[1..outputSize])
  {
    ghost var start, errs := Fir([errorBuffer[0]], coefTable[..]), errorBuffer[1..outputSize];
    bufferOut[0] := errorBuffer[0];
    assert errs[0..] == errs && bufferOut[..1] == [errorBuffer[0]];
    var i := 1;
    while i < outputSize
      invariant 1 <= i <= outputSize
      invariant Decoded(start, s, errs) == Decoded(Fir(bufferOut[..i], coefTable[..]), s, errs[i - 1..])
    {
      DecodedStep(Fir(bufferOut[..i], coefTable[..]), s, errs, i - 1);
      DecodeSample(errorBuffer[i], bufferOut, i, s, coefTable);
      i := i + 1;
    }
    assert errs[outputSize - 1..] == [];
  }
}
