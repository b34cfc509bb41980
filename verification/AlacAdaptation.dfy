/** What one step of the adaptive predictor does to its coefficients and to the next sample, in terms of the window of
    samples before it. */
module AlacAdaptation {
  import opened Words
  import opened AlacFir

  /** Differences of the samples of a window to its first, the newest sample first: difference j goes with coefficient
      j. */
  function Difference(out: seq<int>, b: nat, num: nat, j: nat): int
    requires j <= num && b + num < |out|
  {
    out[b + num - j] - out[b]
  }

  function Abs(v: int): nat { if v < 0 then -v else v }

  /** The samples are within 24 bits, the widest there are. */
  ghost predicate Small(out: seq<int>) { forall i :: 0 <= i < |out| ==> -0x80_0000 <= out[i] < 0x80_0000 }

  // ----- Which coefficients move, and which way -----

  /** What a coefficient takes off the residual before it: its difference over 2^quant, rounded down for a positive
      residual and up for a negative one, times its distance from the end. */
  function Cost(difference: int, dir: int, quant: nat, weight: nat): int { Share(difference, dir, quant) * weight }

  function Share(difference: int, dir: int, quant: nat): int {
    if dir > 0 then Abs(difference) / Pow2(quant) else (Abs(difference) + Pow2(quant) - 1) / Pow2(quant)
  }

  /** What the coefficients from k up to n take off together. */
  function Costs(out: seq<int>, b: nat, s: Setting, dir: int, k: nat, n: nat): int
    requires b + s.num < |out| && n <= s.num
    decreases n - k
  {
    if k >= n then 0
    else Costs(out, b, s, dir, k + 1, n) + Cost(Difference(out, b, s.num, k), dir, s.quant, s.num - k)
  }

  /** The coefficients from m up to n have moved by one in the direction dir, each with the sign of its difference; the
      others have not. */
  ghost predicate MovedFrom(out: seq<int>, b: nat, num: nat, c: seq<int>, d: seq<int>, dir: int, m: nat, n: nat)
    requires b + num < |out| && n <= num <= |c|
  {
    && |d| == |c|
    && forall j :: 0 <= j < |c| ==>
         d[j] == if m <= j < n then Wrap16(c[j] + dir * Sign(Difference(out, b, num, j))) else c[j]
  }

  lemma Wrap32Small(v: int)
    requires -0x8000_0000 <= v < 0x8000_0000
    ensures Wrap32(v) == v
  {}

  lemma Grows(d: int, q: int)
    requires d >= 1 && q >= 0
    ensures d * q >= q
  {}

  lemma QuotientBound(v: int, d: int)
    requires v >= 0 && d >= 1
    ensures 0 <= v / d <= v
  {
    var q := v / d;
    assert v == d * q + v % d;
    Grows(d, q);
  }

  /** Rounding a negative number down is rounding its absolute value up. */
  lemma RoundedUp(v: int, d: int)
    requires v >= 0 && d >= 1
    ensures (-v) / d == -((v + d - 1) / d) && 0 <= (v + d - 1) / d <= v
  {
    QuotientBound(v, d);
    if v % d == 0 { WholeUp(v, d, v / d); } else { PartUp(v, d, v / d, v % d); }
  }

  lemma WholeUp(v: int, d: int, q: int)
    requires d >= 1 && v == d * q
    ensures (-v) / d == -q && (v + d - 1) / d == q
  {
    DivUnique(v + d - 1, d, q, d - 1);
    assert -v == d * (-q) + 0;
    DivUnique(-v, d, -q, 0);
  }

  lemma PartUp(v: int, d: int, q: int, r: int)
    requires d >= 1 && q >= 0 && 0 < r < d && v == d * q + r
    ensures (-v) / d == -(q + 1) && (v + d - 1) / d == q + 1 <= v
  {
    Grows(d, q);
    assert d * (q + 1) == d * q + d && d * (-q - 1) == -(d * q) - d;
    DivUnique(v + d - 1, d, q + 1, r - 1);
    DivUnique(-v, d, -q - 1, d - r);
  }

  lemma ProductBound(a: int, b: int, m: int, n: int)
    requires 0 <= a <= m && 0 <= b <= n
    ensures 0 <= a * b <= m * n
  {
    assert a * b <= a * n by { assert a * (n - b) >= 0; }
    assert a * n <= m * n by { assert (m - a) * n >= 0; }
  }

  /** A difference without its sign, taken in direction dir and shifted. */
  lemma ShiftedIs(difference: int, dir: int, quant: nat)
    requires dir == 1 || dir == -1
    ensures 0 <= Share(difference, dir, quant) <= Abs(difference)
    ensures (dir * Abs(difference)) / Pow2(quant) == dir * Share(difference, dir, quant)
  {
    QuotientBound(Abs(difference), Pow2(quant));
    RoundedUp(Abs(difference), Pow2(quant));
  }

  /** The residual left after coefficient k, towards 0 by its cost. */
  lemma LeftAfter(err: int, difference: int, dir: int, quant: nat, weight: nat)
    requires quant >= 1 && (dir == 1 || dir == -1) && weight <= 31 && 0 < dir * err <= 0x100_0000
    requires -0x100_0000 < difference < 0x100_0000
    ensures dir * ErrorLeft(err, -difference, dir, quant, weight) == dir * err - Cost(difference, dir, quant, weight)
    ensures 0 <= Cost(difference, dir, quant, weight) <= 31 * 0x100_0000
  {
    ShiftedIs(difference, dir, quant);
    ProductBound(Share(difference, dir, quant), weight, 0x100_0000, 31);
    LeftBy(err, difference, dir, quant, weight, Share(difference, dir, quant));
  }

  lemma LeftBy(err: int, difference: int, dir: int, quant: nat, weight: nat, q: int)
    requires (dir == 1 || dir == -1) && 0 < dir * err <= 0x100_0000 && -0x100_0000 < difference < 0x100_0000
    requires (dir * Abs(difference)) / Pow2(quant) == dir * q && 0 <= q * weight <= 31 * 0x100_0000
    ensures dir * ErrorLeft(err, -difference, dir, quant, weight) == dir * err - q * weight
  {
    Unsigned(difference, dir);
    Wrap32Small(dir * Abs(difference));
    ErrorLeftIs(err, -difference, dir, quant, weight, dir * Abs(difference), dir * q);
    LeftSmall(err, dir, q, weight, q * weight);
  }

  lemma LeftSmall(err: int, dir: int, q: int, weight: int, cost: int)
    requires (dir == 1 || dir == -1) && 0 < dir * err <= 0x100_0000
    requires cost == q * weight && 0 <= cost <= 31 * 0x100_0000
    ensures dir * Wrap32(err - Wrap32(dir * q * weight)) == dir * err - cost
  {
    Flipped(dir, q, weight);
    Wrap32Small(dir * cost);
    Wrap32Small(err - dir * cost);
    if dir == 1 {} else {}
  }

  lemma ErrorLeftIs(err: int, val: int, dir: int, quant: nat, weight: nat, x: int, y: int)
    requires Wrap32(val * (dir * Sign(val))) == x && x / Pow2(quant) == y
    ensures ErrorLeft(err, val, dir, quant, weight) == Wrap32(err - Wrap32(y * weight))
  {}

  lemma Unsigned(difference: int, dir: int)
    requires dir == 1 || dir == -1
    ensures -difference * (dir * Sign(-difference)) == dir * Abs(difference)
  {
    if difference > 0 { assert Sign(-difference) == -1; }
  }

  lemma Flipped(dir: int, q: int, weight: int)
    requires dir == 1 || dir == -1
    ensures dir * q * weight == dir * (q * weight)
  {}

  /** The loop over the coefficients below n: it stops at the first m where the costs reach the residual. */
  lemma {:induction false} AdaptedFrom(out: seq<int>, b: nat, s: Setting, c: seq<int>, err: int, dir: int, n: nat)
    returns (m: nat)
    requires s.Valid() && b + s.num < |out| && n <= s.num <= |c| && Small(out)
    requires (dir == 1 || dir == -1) && -0x4000_0000 <= dir * err <= 0x100_0000
    ensures m <= n && MovedFrom(out, b, s.num, c, Adapted(out, b, s, c, err, dir, n), dir, m, n)
    ensures (m == 0 || dir * err <= Costs(out, b, s, dir, m, n))
    ensures forall k :: m < k <= n ==> Costs(out, b, s, dir, k, n) < dir * err
    decreases n
  {
    if n == 0 || err * dir <= 0 {
      m := n;
      assert Adapted(out, b, s, c, err, dir, n) == c;
    } else {
      var k := n - 1;
      var d := Difference(out, b, s.num, k);
      var left := ErrorLeft(err, -d, dir, s.quant, s.num - k);
      LeftAfter(err, d, dir, s.quant, s.num - k);
      var moved := c[k := AdaptedCoef(c[k], -d, dir)];
      m := AdaptedFrom(out, b, s, moved, left, dir, k);
      AdaptedNext(out, b, s, c, err, dir, n, d);
      MovedOneMore(out, b, s.num, c, dir, n, m, d, Adapted(out, b, s, moved, left, dir, k));
      CostsOneMore(out, b, s, dir * err, dir, n, k, m, dir * left);
    }
  }

  lemma AdaptedNext(out: seq<int>, b: nat, s: Setting, c: seq<int>, err: int, dir: int, n: nat, d: int)
    requires s.Valid() && b + s.num < |out| && 0 < n <= s.num <= |c| && Small(out) && err * dir > 0
    requires d == Difference(out, b, s.num, n - 1)
    ensures Adapted(out, b, s, c, err, dir, n)
         == Adapted(out, b, s, c[n - 1 := AdaptedCoef(c[n - 1], -d, dir)],
                    ErrorLeft(err, -d, dir, s.quant, s.num - (n - 1)), dir, n - 1)
  {
    Wrap32Small(-d);
    assert out[b] - out[b + s.num - (n - 1)] == -d;
  }

  /** A coefficient moves with the sign of its difference. */
  lemma MovedOneMore(out: seq<int>, b: nat, num: nat, c: seq<int>, dir: int, n: nat, m: nat, d: int, z: seq<int>)
    requires b + num < |out| && 0 < n <= num <= |c| && m <= n - 1 && d == Difference(out, b, num, n - 1)
    requires MovedFrom(out, b, num, c[n - 1 := AdaptedCoef(c[n - 1], -d, dir)], z, dir, m, n - 1)
    ensures MovedFrom(out, b, num, c, z, dir, m, n)
  {
    assert Sign(-d) == -Sign(d) && dir * -Sign(d) == -(dir * Sign(d));
    assert AdaptedCoef(c[n - 1], -d, dir) == Wrap16(c[n - 1] + dir * Sign(d));
  }

  /** The costs that the residual left is compared with are those of the residual less the last. */
  lemma CostsOneMore(out: seq<int>, b: nat, s: Setting, err: int, dir: int, n: nat, k: nat, m: nat, left: int)
    requires s.Valid() && b + s.num < |out| && n == k + 1 <= s.num && m <= k
    requires left == err - Cost(Difference(out, b, s.num, k), dir, s.quant, s.num - k) && 0 < err
    requires m == 0 || left <= Costs(out, b, s, dir, m, k)
    requires forall j :: m < j <= k ==> Costs(out, b, s, dir, j, k) < left
    ensures m == 0 || err <= Costs(out, b, s, dir, m, n)
    ensures forall j :: m < j <= n ==> Costs(out, b, s, dir, j, n) < err
  {
    forall j | m <= j < n ensures Costs(out, b, s, dir, j, n) - err == Costs(out, b, s, dir, j, k) - left {
      CostsLast(out, b, s, dir, j, n);
    }
  }

  lemma {:induction false} CostsLast(out: seq<int>, b: nat, s: Setting, dir: int, k: nat, n: nat)
    requires b + s.num < |out| && k < n <= s.num
    ensures Costs(out, b, s, dir, k, n)
         == Costs(out, b, s, dir, k, n - 1) + Cost(Difference(out, b, s.num, n - 1), dir, s.quant, s.num - (n - 1))
    decreases n - k
  {
    if k + 1 < n { CostsLast(out, b, s, dir, k + 1, n); }
  }

  /** The direction of a residual that is not 0. */
  function Towards(err: int): int { if err > 0 then 1 else -1 }

  /** After a residual, the coefficients from some m on have moved by one towards it and no other has moved: m is the
      first at which, coming from the last coefficient, the costs reach the residual, or 0 if they never do. */
  lemma StepAdapts(f: Fir, s: Setting, err: int) returns (m: nat)
    requires f.Valid(s) && General(s, |f.out|) && Small(f.out) && err != 0 && -0x100_0000 <= err <= 0x100_0000
    ensures m <= s.num
    ensures var b := |f.out| - s.num - 1;
            && MovedFrom(f.out, b, s.num, f.coefs, Decoded(f, s, [err]).coefs, Towards(err), m, s.num)
            && (m == 0 || Abs(err) <= Costs(f.out, b, s, Towards(err), m, s.num))
            && forall k :: m < k <= s.num ==> Costs(f.out, b, s, Towards(err), k, s.num) < Abs(err)
  {
    m := AdaptedFrom(f.out, |f.out| - s.num - 1, s, f.coefs, err, Towards(err), s.num);
    OneDecoded(f, s, err);
  }

  lemma OneDecoded(f: Fir, s: Setting, err: int)
    requires f.Valid(s)
    ensures Decoded(f, s, [err]) == After(f, s, Sample(f, s, err), err)
  {
    assert [err][1..] == [];
  }

  /** A residual of 0, and one among the first samples, moves nothing. */
  lemma StepKeeps(f: Fir, s: Setting, err: int)
    requires f.Valid(s) && (err == 0 || !General(s, |f.out|))
    ensures Decoded(f, s, [err]).coefs == f.coefs
  {
    OneDecoded(f, s, err);
  }

  // ----- What that does to the sum -----

  /** The sum of the first j coefficients times their differences. */
  function Dot(out: seq<int>, b: nat, num: nat, c: seq<int>, j: nat): int
    requires b + num < |out| && j <= num <= |c|
  {
    if j == 0 then 0 else Dot(out, b, num, c, j - 1) + Difference(out, b, num, j - 1) * c[j - 1]
  }

  /** The differences from m up to j without their signs, added up. */
  function Total(out: seq<int>, b: nat, num: nat, m: nat, j: nat): nat
    requires b + num < |out| && j <= num
  {
    if j <= m then 0 else Total(out, b, num, m, j - 1) + Abs(Difference(out, b, num, j - 1))
  }

  ghost predicate NoOverflow(c: seq<int>) { forall j :: 0 <= j < |c| ==> -0x8000 < c[j] < 0x7FFF }

  lemma {:induction false} DotMoves(out: seq<int>, b: nat, num: nat, c: seq<int>, d: seq<int>, dir: int, m: nat, j: nat)
    requires b + num < |out| && j <= num <= |c| && NoOverflow(c) && (dir == 1 || dir == -1)
    requires MovedFrom(out, b, num, c, d, dir, m, num)
    ensures Dot(out, b, num, d, j) == Dot(out, b, num, c, j) + dir * Total(out, b, num, m, j)
  {
    if j > 0 {
      DotMoves(out, b, num, c, d, dir, m, j - 1);
      var x := Difference(out, b, num, j - 1);
      assert x * Sign(x) == Abs(x);
      if m <= j - 1 {
        assert d[j - 1] == c[j - 1] + dir * Sign(x);
        Spread(x, c[j - 1], dir, Sign(x));
      }
    }
  }

  lemma Spread(x: int, c: int, dir: int, sign: int)
    requires dir == 1 || dir == -1
    ensures x * (c + dir * sign) == x * c + dir * (x * sign)
  {}

  /** Over the same window the sum moves towards the residual, by the differences of the coefficients that moved. It
      moves at all when the last sample but one of the window differs from the first, the first coefficient looked
      at. */
  lemma SumMovesTowardsResidual(f: Fir, s: Setting, err: int) returns (m: nat)
    requires f.Valid(s) && General(s, |f.out|) && Small(f.out) && err != 0 && -0x100_0000 <= err <= 0x100_0000
    requires NoOverflow(f.coefs)
    ensures m < s.num
    ensures var b, d := |f.out| - s.num - 1, Decoded(f, s, [err]).coefs;
            && |d| == |f.coefs|
            && Dot(f.out, b, s.num, d, s.num)
               == Dot(f.out, b, s.num, f.coefs, s.num) + Towards(err) * Total(f.out, b, s.num, m, s.num)
            && Total(f.out, b, s.num, m, s.num) >= Abs(Difference(f.out, b, s.num, s.num - 1))
  {
    m := StepAdapts(f, s, err);
    var b := |f.out| - s.num - 1;
    DotMoves(f.out, b, s.num, f.coefs, Decoded(f, s, [err]).coefs, Towards(err), m, s.num);
    if m == s.num { assert false; }
  }

  // ----- The next sample -----

  /** Every sample is in range and differs from what was predicted for it by the residual, modulo the range. */
  lemma SampleIs(f: Fir, s: Setting, err: int)
    requires f.Valid(s) && s.num != 0
    ensures var g := Decoded(f, s, [err]).out;
            && |g| == |f.out| + 1 && g[..|f.out|] == f.out && InRange(g[|f.out|], s.bits)
            && exists k: int :: g[|f.out|] == Predicted(f, s) + err + k * Pow2(s.bits)
  {
    OneDecoded(f, s, err);
    SignExtendedRange(Wrap32(Predicted(f, s) + err), s.bits);
    var j := Wrap32Is(Predicted(f, s) + err, s.bits);
    var k := SignExtendedIs(Predicted(f, s) + err + j * Pow2(s.bits), s.bits);
    Distributed(Predicted(f, s) + err, j, k, Pow2(s.bits));
    assert Decoded(f, s, [err]).out[|f.out|] == Predicted(f, s) + err + (j + k) * Pow2(s.bits);
  }

  /** Without coefficients the residuals are the samples; with 31, and for the first ones, each sample is predicted to
      be as the one before. */
  lemma WithoutCoefficients(f: Fir, s: Setting, err: int)
    requires f.Valid(s) && !General(s, |f.out|)
    ensures s.num == 0 ==> Decoded(f, s, [err]).out == f.out + [err]
    ensures Predicted(f, s) == f.out[|f.out| - 1]
  {
    OneDecoded(f, s, err);
  }

  /** All partial sums are within 31 bits. */
  ghost predicate FitsSum(out: seq<int>, b: nat, num: nat, c: seq<int>)
    requires b + num < |out| && num <= |c|
  {
    && (forall j :: 0 <= j < num ==> -0x4000_0000 <= Difference(out, b, num, j) * c[j] <= 0x4000_0000)
    && forall j :: 0 <= j <= num ==> -0x3000_0000 <= Dot(out, b, num, c, j) <= 0x3000_0000
  }

  lemma {:induction false} SumIsDot(out: seq<int>, b: nat, num: nat, c: seq<int>, j: nat)
    requires b + num < |out| && j <= num <= |c| && Small(out) && FitsSum(out, b, num, c)
    ensures Sum(out, b, num, c, j) == Dot(out, b, num, c, j)
  {
    if j > 0 {
      SumIsDot(out, b, num, c, j - 1);
      var x, y := Difference(out, b, num, j - 1), c[j - 1];
      Wrap32Small(x);
      Wrap32Small(x * y);
      Wrap32Small(Dot(out, b, num, c, j));
    }
  }

  /** The prediction is the first sample of the window plus the sum over 2^quant, rounded to the nearest, halves up. */
  lemma PredictsNearest(f: Fir, s: Setting)
    requires f.Valid(s) && General(s, |f.out|) && Small(f.out) && s.quant <= 28
    requires FitsSum(f.out, |f.out| - s.num - 1, s.num, f.coefs)
    ensures var b := |f.out| - s.num - 1;
            var above: int := (Predicted(f, s) - f.out[b]) * Pow2(s.quant) - Dot(f.out, b, s.num, f.coefs, s.num);
            0 - Pow2(s.quant - 1) < above <= Pow2(s.quant - 1)
  {
    var b := |f.out| - s.num - 1;
    SumIsDot(f.out, b, s.num, f.coefs, s.num);
    Pow2OfQuant(s.quant, 28);
    RoundedNearest(Dot(f.out, b, s.num, f.coefs, s.num), f.out[b], s.quant, Pow2(s.quant), Pow2(s.quant - 1));
  }

  lemma Pow2OfQuant(quant: nat, n: nat)
    requires 1 <= quant <= n == 28
    ensures Pow2(quant) == 2 * Pow2(quant - 1) && 1 <= Pow2(quant - 1) && Pow2(quant) <= 0x1000_0000
  {
    Pow2Mono(quant, n);
    Pow2Constants();
  }

  lemma RoundedNearest(x: int, first: int, quant: nat, d: int, half: int)
    requires quant >= 1 && d == Pow2(quant) && half == Pow2(quant - 1) && d == 2 * half && 1 <= half && d <= 0x1000_0000
    requires -0x3000_0000 <= x <= 0x3000_0000 && -0x80_0000 <= first < 0x80_0000
    ensures -half < (Rounded(x, first, quant) - first) * d - x <= half
  {
    var q := (half + x) / d;
    Nearest(x, d, half, q);
    Wrap32Small(half + x);
    Wrap32Small(q + first);
  }

  lemma Nearest(x: int, d: int, half: int, q: int)
    requires half >= 1 && d == 2 * half && q == (half + x) / d && -0x3000_0000 <= x <= 0x3000_0000 && d <= 0x1000_0000
    ensures -half < q * d - x <= half && -0x7000_0000 <= q <= 0x7000_0000
  {
    assert half + x == d * q + (half + x) % d;
    if q > 0 { Grows(d, q); } else { Grows(d, -q); }
  }

  // ----- One run, in numbers -----

  lemma Extended16(v: int, bits: nat)
    requires bits == 16 && -0x8000 <= v < 0x8000
    ensures SignExtended(v, bits) == v
  {
    Pow2Constants();
    Pow2Add(8, 8);
    InRangeKept(v, bits);
  }

  lemma Halves(q: nat)
    requires q == 1
    ensures Pow2(q) == 2 && Pow2(q - 1) == 1
  {}

  /** A sample after the first two, with one coefficient: the prediction goes on from the last sample but one by half
      the product, and the coefficient follows a residual. */
  lemma OneCoefficient(f: Fir, s: Setting, err: int, one: nat, a: int, b: int, sum: int)
    requires one == 1 && s == Setting(16, one, one) && |f.out| >= 2 && |f.coefs| == 1 && Small(f.out)
    requires -100 <= f.coefs[0] <= 100 && 0 <= err <= 100 && -100 <= a <= 100 && -100 <= sum <= 100
    requires a == f.out[|f.out| - 2] && b == f.out[|f.out| - 1] && sum == (b - a) * f.coefs[0]
    ensures var g := Decoded(f, s, [err]);
            && g.out == f.out + [a + (1 + sum) / 2 + err]
            && g.coefs == [if err > 0 then f.coefs[0] + Sign(b - a) else f.coefs[0]]
  {
    OnePredicted(f, s, one, a, b, sum);
    OneSample(f, s, err, Predicted(f, s), one);
    if err > 0 { OneMoved(f, s, err, one, a, b); } else { StepKeeps(f, s, err); }
  }

  lemma OnePredicted(f: Fir, s: Setting, one: nat, a: int, b: int, sum: int)
    requires one == 1 && s == Setting(16, one, one) && |f.out| >= 2 && |f.coefs| == 1 && Small(f.out)
    requires a == f.out[|f.out| - 2] && b == f.out[|f.out| - 1] && sum == (b - a) * f.coefs[0] && -100 <= sum <= 100
    ensures Predicted(f, s) == a + (1 + sum) / 2
  {
    OneProduct(f.out, |f.out| - 2, f.coefs, one, sum);
    Halves(one);
    PredictsNearest(f, s);
  }

  lemma OneSample(f: Fir, s: Setting, err: int, p: int, one: nat)
    requires one == 1 && s == Setting(16, one, one) && f.Valid(s)
    requires p == Predicted(f, s) && -0x7000 <= p + err <= 0x7000
    ensures Decoded(f, s, [err]).out == f.out + [p + err]
  {
    OneDecoded(f, s, err);
    Extended16(p + err, s.bits);
    Wrap32Small(p + err);
  }

  lemma OneMoved(f: Fir, s: Setting, err: int, one: nat, a: int, b: int)
    requires one == 1 && s == Setting(16, one, one) && |f.out| >= 2 && |f.coefs| == 1 && Small(f.out)
    requires a == f.out[|f.out| - 2] && b == f.out[|f.out| - 1] && 0 < err <= 100 && -100 <= f.coefs[0] <= 100
    ensures Decoded(f, s, [err]).coefs == [f.coefs[0] + Sign(b - a)]
  {
    var m := StepAdapts(f, s, err);
    if m == one { assert false; }
    OneMovedIs(f.out, |f.out| - 2, f.coefs, Decoded(f, s, [err]).coefs, m, one, a, b);
  }

  lemma OneMovedIs(out: seq<int>, at: nat, c: seq<int>, d: seq<int>, m: nat, one: nat, a: int, b: int)
    requires one == 1 == |c| && m == 0 && at + one < |out| && a == out[at] && b == out[at + 1] && -100 <= c[0] <= 100
    requires MovedFrom(out, at, one, c, d, 1, m, one)
    ensures d == [c[0] + Sign(b - a)]
  {
    assert Difference(out, at, one, 0) == b - a;
  }

  lemma OneProduct(out: seq<int>, b: nat, c: seq<int>, one: nat, sum: int)
    requires one == 1 == |c| && b + one < |out| && sum == (out[b + 1] - out[b]) * c[0] && -100 <= sum <= 100
    ensures Dot(out, b, one, c, one) == sum && FitsSum(out, b, one, c)
  {
    assert Difference(out, b, one, 0) == out[b + 1] - out[b];
    assert Dot(out, b, one, c, 0) == 0;
  }

  lemma SecondSample(f: Fir, s: Setting, one: nat)
    requires one == 1 && s == Setting(16, one, one) && f == Fir([10], [2])
    ensures Decoded(f, s, [2]) == Fir([10, 12], [2])
  {
    OneSample(f, s, 2, 10, one);
    StepKeeps(f, s, 2);
    assert [10] + [12] == [10, 12];
  }

  lemma ThreeInTurn(f: Fir, g: Fir, h: Fir, s: Setting, x: int, y: int, z: int)
    requires f.Valid(s) && g.Valid(s) && h.Valid(s) && Decoded(f, s, [x]) == g && Decoded(g, s, [y]) == h
    ensures Decoded(f, s, [x, y, z]) == Decoded(h, s, [z])
  {
    OneDecoded(f, s, x);
    OneDecoded(g, s, y);
    assert [x, y, z][1..] == [y, z] && [y, z][1..] == [z];
  }

  lemma ThirdSample(f: Fir, s: Setting, one: nat)
    requires one == 1 && s == Setting(16, one, one) && f == Fir([10, 12], [2])
    ensures Decoded(f, s, [3]) == Fir([10, 12, 15], [3])
  {
    OneCoefficient(f, s, 3, one, 10, 12, 4);
    assert [10, 12] + [15] == [10, 12, 15];
  }

  lemma FourthSample(f: Fir, s: Setting, one: nat)
    requires one == 1 && s == Setting(16, one, one) && f == Fir([10, 12, 15], [3])
    ensures Decoded(f, s, [0]) == Fir([10, 12, 15, 17], [3])
  {
    OneCoefficient(f, s, 0, one, 12, 15, 9);
    assert [10, 12, 15] + [17] == [10, 12, 15, 17];
  }

  /** Residuals 10, 2, 3, 0 and coefficient 2: two first samples, a predicted one, from which the coefficient learns,
      and another. */
  lemma FourSamples(f: Fir, s: Setting, one: nat)
    requires one == 1 && s == Setting(16, one, one) && f == Fir([10], [2])
    ensures Decoded(f, s, [2, 3, 0]) == Fir([10, 12, 15, 17], [3])
  {
    SecondSample(f, s, one);
    ThirdSample(Fir([10, 12], [2]), s, one);
    FourthSample(Fir([10, 12, 15], [3]), s, one);
    ThreeInTurn(f, Fir([10, 12], [2]), Fir([10, 12, 15], [3]), s, 2, 3, 0);
  }
}
