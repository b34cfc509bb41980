/** The adaptive Rice decoder of the ALAC decoder (entropy_decode_value and entropy_rice_decode in
    common/libraop/src/alac.c), with an encoder that mirrors it. */
module AlacRice {
  import opened Words
  import opened AlacBits

  const RICE_THRESHOLD: nat := 8

  /** A value read, and the bit after it. */
  datatype Read = Read(value: nat, next: nat)

  // ----- One value -----

  /** How many of the bits from p on are ones, looking no further than bit e. */
  function Ones(m: Memory, p: nat, e: nat): (n: nat)
    ensures p <= e ==> n <= e - p
    decreases e - p
  {
    if p >= e || Bit(m, p) == 0 then 0 else 1 + Ones(m, p + 1, e)
  }

  function Prefix(m: Memory, p: nat): (n: nat)
    ensures n <= RICE_THRESHOLD + 1
  {
    Ones(m, p, p + RICE_THRESHOLD + 1)
  }

  /** The value of one prefix bit: (2^k - 1) masked to width bits. */
  function Step(k: nat, width: nat): nat { Pow2(if k < width then k else width) - 1 }

  function Base(x: nat, k: nat, width: nat): nat { x * Step(k, width) }

  function Suffixed(m: Memory, q: nat, base: nat, k: nat): Read
    requires q > 0
  {
    var extra := Number(m, q, k);
    if extra > 1 then Read(base + extra - 1, q + k) else Read(base, q + k - 1)
  }

  function Short(m: Memory, p: nat, x: nat, k: nat, width: nat): Read {
    if k == 1 then Read(x, p + x + 1) else Suffixed(m, p + x + 1, Base(x, k, width), k)
  }

  /** What follows a prefix of x ones. */
  function AfterPrefix(m: Memory, p: nat, x: nat, size: nat, k: nat, width: nat): Read {
    if x > RICE_THRESHOLD then Read(Number(m, p + x, size), p + x + size) else Short(m, p, x, k, width)
  }

  /** entropy_decode_value at bit p. */
  function Value(m: Memory, p: nat, size: nat, k: nat, width: nat): Read {
    AfterPrefix(m, p, Prefix(m, p), size, k, width)
  }

  // ----- The adaptive state -----

  /** The number of times v can be halved. */
  function Log2(v: nat): nat { if v < 2 then 0 else 1 + Log2(v / 2) }

  /** __builtin_clz on 32 bits. */
  function CountLeadingZeros(v: nat): int
    requires v > 0
  {
    31 - Log2(v)
  }

  /** What a block is decoded with: sample width, modifier, multiplier of the history. */
  datatype Params = Params(size: nat, kmodifier: nat, mult: nat) {
    ghost predicate Valid() { 1 <= size <= 24 && 1 <= kmodifier <= 30 && 1 <= mult <= 64 }
  }

  function KOf(history: nat, kmodifier: nat): int {
    var k := 31 - kmodifier - CountLeadingZeros(history / 512 + 3);
    if k < 0 then k + kmodifier else kmodifier
  }

  function RunKOf(history: nat): int
    requires history > 0
  {
    CountLeadingZeros(history) + (history + 16) / 64 - 24
  }

  function Updated(history: nat, value: nat, mult: nat): int {
    if value > 0xFFFF then 0xFFFF else history + value * mult - history * mult / 512
  }

  /** The sign is in the low bit. */
  function Unfolded(value: nat): int { if value % 2 == 1 then -((value + 1) / 2) else (value + 1) / 2 }

  const HISTORY_MAX: nat := 512 * 65535

  /** The state between two values: after a run of zeros the history is 0 and the next value is not 0. */
  ghost predicate State(history: int, sign: nat) {
    0 <= history <= HISTORY_MAX && sign <= 1 && (history == 0 ==> sign == 1)
  }

  lemma {:induction false} Log2Bounds(v: nat)
    requires v >= 1
    ensures Pow2(Log2(v)) <= v < Pow2(Log2(v) + 1)
  {
    if v >= 2 { Log2Bounds(v / 2); }
  }

  lemma Log2Below(v: nat, n: nat)
    requires 1 <= v < Pow2(n)
    ensures n >= 1 && Log2(v) < n
  {
    Log2Bounds(v);
    if n <= Log2(v) { Pow2Mono(n, Log2(v)); }
  }

  lemma Log2Least(v: nat, n: nat)
    requires v >= Pow2(n)
    ensures Log2(v) >= n
  {
    Log2Bounds(v);
    if Log2(v) < n { Pow2Mono(Log2(v) + 1, n); }
  }

  /** k of the normal path: in [1, kmodifier], and no more than 16; the count is never taken of 0. */
  lemma KInRange(history: nat, kmodifier: nat)
    requires history <= HISTORY_MAX && kmodifier >= 1
    ensures 1 <= KOf(history, kmodifier) <= kmodifier && KOf(history, kmodifier) <= 16
    ensures 1 <= Log2(history / 512 + 3) <= 16
  {
    var v := history / 512 + 3;
    Pow2Of(1, 17);
    Log2Below(v, 17);
    Log2Least(v, 1);
  }

  lemma Pow2Of(a: nat, b: nat)
    requires a == 1 && b == 17
    ensures Pow2(a) == 2 && Pow2(b) == 0x2_0000
  {
    Pow2Constants();
    Pow2Add(3, 14);
    assert Pow2(3) == 8;
  }

  lemma SmallLog2(h: nat)
    requires 1 <= h < 128
    ensures Log2(h) == if h >= 64 then 6 else if h >= 32 then 5 else if h >= 16 then 4 else if h >= 8 then 3
                       else if h >= 4 then 2 else if h >= 2 then 1 else 0
  {}

  /** k of the path for runs of zeros: in [2, 7]. */
  lemma RunKInRange(history: nat)
    requires 1 <= history < 128
    ensures 2 <= RunKOf(history) <= 7
  {
    SmallLog2(history);
  }

  /** The history stays in range; it never becomes 0 by an update, because the decay is less than the history and a
      value after a run is at least 1. */
  lemma HistoryInRange(history: nat, value: nat, mult: nat)
    requires history <= HISTORY_MAX && 1 <= mult <= 64 && (history > 0 || value > 0)
    ensures 1 <= Updated(history, value, mult) <= HISTORY_MAX
    ensures 0 <= history * mult < 0x8000_0000
  {
    Bounded(history, mult, HISTORY_MAX, 64);
    Decay(history, mult);
    if value <= 0xFFFF {
      Bounded(value, mult, 0xFFFF, mult);
      if history == 0 { Bounded(1, mult, value, mult); }
      Growth(history, mult);
    }
  }

  lemma Bounded(a: nat, b: nat, c: nat, d: nat)
    requires a <= c && b <= d
    ensures 0 <= a * b <= c * d
  {
    assert a * b <= c * b;
    assert c * b <= c * d;
  }

  lemma Decay(h: nat, m: nat)
    requires m <= 64
    ensures h * m / 512 <= h / 8
  {
    Bounded(h, m, h, 64);
  }

  lemma Growth(h: nat, m: nat)
    requires h <= HISTORY_MAX && m <= 512
    ensures h - h * m / 512 + 65535 * m <= HISTORY_MAX
  {
    var t := HISTORY_MAX - h;
    Bounded(t, m, t, 512);
    assert h * m + t * m == HISTORY_MAX * m;
    assert h * m / 512 >= 65535 * m - t;
  }

  // ----- The size of a value -----

  lemma SuffixedBound(m: Memory, q: nat, base: nat, k: nat)
    requires q > 0
    ensures Suffixed(m, q, base, k).value < base + Pow2(k)
  {
    NumberBound(m, q, k);
  }

  lemma BaseBound(x: nat, k: nat, width: nat)
    requires x <= RICE_THRESHOLD
    ensures Base(x, k, width) + Pow2(k) <= 9 * Pow2(k)
  {
    StepBound(k, width);
    Bounded(x, Step(k, width), 8, Pow2(k) - 1);
  }

  lemma ShortBound(m: Memory, p: nat, x: nat, k: nat, width: nat)
    requires k >= 1 && x <= RICE_THRESHOLD
    ensures Short(m, p, x, k, width).value < 9 * Pow2(k)
  {
    if k > 1 {
      SuffixedBound(m, p + x + 1, Base(x, k, width), k);
      BaseBound(x, k, width);
    }
    assert Pow2(k) >= 1;
  }

  lemma ValueBound(m: Memory, p: nat, x: nat, size: nat, k: nat, width: nat, bound: nat)
    requires k >= 1 && Pow2(size) <= bound && 9 * Pow2(k) <= bound
    ensures AfterPrefix(m, p, x, size, k, width).value < bound
  {
    if x > RICE_THRESHOLD { NumberBound(m, p + x, size); } else { ShortBound(m, p, x, k, width); }
  }

  /** A run has at most 65535 zeros, so the sign modifier is always set after it. */
  lemma RunIsShort(m: Memory, p: nat, k: nat, width: nat, size: nat)
    requires 2 <= k <= 7 && size == 16
    ensures Value(m, p, size, k, width).value <= 0xFFFF
  {
    Pow2Few(k, 7, size);
    ValueBound(m, p, Prefix(m, p), size, k, width, 0x1_0000);
  }

  lemma Pow2Few(k: nat, a: nat, b: nat)
    requires k <= a == 7 && b == 16
    ensures Pow2(k) <= 128 && Pow2(b) == 0x1_0000
  {
    Pow2Mono(k, a);
    Pow2Bytes(a + 1, b, b + a + 1);
  }

  lemma StepBound(k: nat, width: nat)
    ensures Step(k, width) <= Pow2(k) - 1
    ensures k >= 1 && width >= 1 ==> Step(k, width) >= 1
  {
    Pow2Mono(if k < width then k else width, k);
    if k >= 1 && width >= 1 { Pow2Mono(1, if k < width then k else width); assert Pow2(1) == 2; }
  }

  // ----- Writing a value -----

  function Fold(v: int): nat { if v >= 0 then 2 * v else -2 * v - 1 }

  lemma FoldUnfold(v: int)
    ensures Unfolded(Fold(v)) == v && (v != 0 ==> Fold(v) > 0)
  {
    if v >= 0 {
      DivUnique(2 * v, 2, v, 0);
      DivUnique(2 * v + 1, 2, v, 1);
    } else {
      DivUnique(-2 * v - 1, 2, -v - 1, 1);
      DivUnique(-2 * v, 2, -v, 0);
    }
  }

  function Repeat(bit: nat, n: nat): (b: seq<nat>)
    ensures |b| == n
  {
    seq(n, _ => bit)
  }

  /** The digits after the prefix: the remainder plus 1 in k bits, or for remainder 0 only k - 1 zeros. */
  function SuffixBits(rest: nat, k: nat): seq<nat>
    requires k >= 1
  {
    if rest == 0 then Repeat(0, k - 1) else BitsOf(rest + 1, k)
  }

  /** What one prefix bit is worth. */
  function Unit(k: nat, width: nat): (d: nat)
    requires k >= 1 && width >= 1
    ensures d >= 1
  {
    StepBound(k, width);
    if k == 1 then 1 else Step(k, width)
  }

  function ShortBits(x: nat, rest: nat, k: nat): seq<nat>
    requires k >= 1
  {
    Repeat(1, x) + [0] + if k == 1 then [] else SuffixBits(rest, k)
  }

  function ValueBits(v: nat, size: nat, k: nat, width: nat): seq<nat>
    requires k >= 1 && width >= 1
  {
    if v / Unit(k, width) > RICE_THRESHOLD then Repeat(1, RICE_THRESHOLD + 1) + BitsOf(v, size)
    else ShortBits(v / Unit(k, width), v % Unit(k, width), k)
  }

  // ----- Reading it back -----

  lemma {:induction false} OnesIs(m: Memory, p: nat, e: nat, x: nat)
    requires p + x <= e && (forall i {:trigger Bit(m, i)} :: p <= i < p + x ==> Bit(m, i) == 1)
    requires p + x < e ==> Bit(m, p + x) == 0
    ensures Ones(m, p, e) == x
    decreases x
  {
    if x > 0 { OnesIs(m, p + 1, e, x - 1); }
  }

  lemma PrefixIs(m: Memory, p: nat, x: nat)
    requires x <= RICE_THRESHOLD + 1 && Carries(m, p, Repeat(1, x)) && (x <= RICE_THRESHOLD ==> Carries(m, p + x, [0]))
    ensures Prefix(m, p) == x
  {
    forall i | p <= i < p + x ensures Bit(m, i) == 1 { assert Repeat(1, x)[i - p] == 1; }
    if x <= RICE_THRESHOLD { assert [0][0] == 0; assert Bit(m, p + x + 0) == 0; }
    OnesIs(m, p, p + RICE_THRESHOLD + 1, x);
  }

  lemma {:induction false} ZeroNumber(m: Memory, p: nat, n: nat)
    requires Carries(m, p, Repeat(0, n))
    ensures Number(m, p, n) == 0
  {
    if n > 0 {
      assert Repeat(0, n) == Repeat(0, n - 1) + [0];
      CarriesParts(m, p, Repeat(0, n - 1), [0]);
      ZeroNumber(m, p, n - 1);
      assert Bit(m, p + n - 1 + 0) == [0][0];
    }
  }

  lemma SuffixReads(m: Memory, q: nat, base: nat, rest: nat, k: nat)
    requires q > 0 && k >= 2 && rest + 1 < Pow2(k) && Carries(m, q, SuffixBits(rest, k))
    ensures Suffixed(m, q, base, k) == Read(base + rest, q + |SuffixBits(rest, k)|)
  {
    if rest == 0 { ZeroNumber(m, q, k - 1); } else { CarriesNumber(m, q, rest + 1, k); }
  }

  lemma ShortReads(m: Memory, p: nat, v: nat, x: nat, rest: nat, k: nat, width: nat)
    requires k >= 1 && width >= 1 && x <= RICE_THRESHOLD && x * Unit(k, width) + rest == v && rest < Unit(k, width)
    requires Carries(m, p, ShortBits(x, rest, k))
    ensures Prefix(m, p) == x && Short(m, p, x, k, width) == Read(v, p + |ShortBits(x, rest, k)|)
  {
    var suffix := if k == 1 then [] else SuffixBits(rest, k);
    CarriesParts(m, p, Repeat(1, x) + [0], suffix);
    CarriesParts(m, p, Repeat(1, x), [0]);
    PrefixIs(m, p, x);
    if k > 1 {
      StepBound(k, width);
      SuffixReads(m, p + x + 1, Base(x, k, width), rest, k);
    }
  }

  lemma QuotientAndRest(v: nat, d: nat)
    requires d > 0
    ensures v / d * d + v % d == v && v % d < d
  {}

  /** A value written for k is read back, and the reader ends where the value ends. */
  lemma ValueReads(m: Memory, p: nat, v: nat, size: nat, k: nat, width: nat)
    requires k >= 1 && width >= 1 && v < Pow2(size) && Carries(m, p, ValueBits(v, size, k, width))
    ensures Value(m, p, size, k, width) == Read(v, p + |ValueBits(v, size, k, width)|)
  {
    var d, full := Unit(k, width), RICE_THRESHOLD + 1;
    if v / d > RICE_THRESHOLD {
      CarriesParts(m, p, Repeat(1, full), BitsOf(v, size));
      PrefixIs(m, p, full);
      CarriesNumber(m, p + full, v, size);
    } else {
      QuotientAndRest(v, d);
      ShortReads(m, p, v, v / d, v % d, k, width);
    }
  }

  // ----- A block of values -----

  /** How a block is coded: what is read for a value and for a run under a history, what is written for them, and how
      a value changes the history. */
  datatype Scheme = Scheme(first: (Memory, nat, nat) -> Read, run: (Memory, nat, nat) -> Read,
                           firstBits: (nat, nat) -> seq<nat>, runBits: (nat, nat) -> seq<nat>,
                           update: (nat, nat) -> nat, fold: int -> nat, unfold: nat -> int)
  {
    /** What is written is read back, for values below limit; histories stay in range. */
    ghost predicate Valid(m: Memory, limit: nat) {
      && (forall p: nat, v: nat, h: nat {:trigger first(m, p, h), firstBits(v, h)} ::
            h <= HISTORY_MAX && v < limit && Carries(m, p, firstBits(v, h)) ==>
                  first(m, p, h) == Read(v, p + |firstBits(v, h)|))
      && (forall p: nat, v: nat, h: nat {:trigger run(m, p, h), runBits(v, h)} ::
            1 <= h < 128 && v <= 0xFFFF && Carries(m, p, runBits(v, h)) ==>
                  run(m, p, h) == Read(v, p + |runBits(v, h)|))
      && (forall v {:trigger fold(v)} :: unfold(fold(v)) == v && (v != 0 ==> fold(v) > 0))
      && (forall h: nat, d: nat {:trigger update(h, d)} :: h <= HISTORY_MAX && (h > 0 || d > 0) ==>
            1 <= update(h, d) <= HISTORY_MAX)
    }
  }

  /** The values of a block, and the bit after it. The last run may go past the end of the block. */
  datatype Values = Values(values: seq<int>, next: nat)

  function Zeros(n: nat): (z: seq<int>)
    ensures |z| == n
  {
    seq(n, _ => 0)
  }

  /** Whether a run of zeros is read after a value. */
  predicate RunNext(history: nat, left: nat) { history < 128 && left > 1 }

  /** One turn of the decoder's loop: the values it gives, the bit after it, and the state after it. */
  datatype Turn = Turn(values: seq<int>, next: nat, history: nat, sign: nat)

  function Turned(m: Memory, p: nat, left: nat, history: nat, sign: nat, c: Scheme): (t: Turn)
    ensures |t.values| >= 1
  {
    var r := c.first(m, p, history);
    var d := r.value + sign;
    var h := c.update(history, d);
    if RunNext(h, left) then
      var run := c.run(m, r.next, h);
      Turn([c.unfold(d)] + Zeros(run.value), run.next, 0, 1)
    else
      Turn([c.unfold(d)], r.next, h, 0)
  }

  function Minus(a: nat, b: nat): nat { if a < b then 0 else a - b }

  /** entropy_rice_decode, with left values still to come. */
  function Decoded(m: Memory, p: nat, left: nat, history: nat, sign: nat, c: Scheme): Values
    decreases left
  {
    if left == 0 then Values([], p)
    else
      var t := Turned(m, p, left, history, sign, c);
      var rest := Decoded(m, t.next, Minus(left, |t.values|), t.history, t.sign, c);
      Values(t.values + rest.values, rest.next)
  }

  lemma {:induction false} DecodedLength(m: Memory, p: nat, left: nat, history: nat, sign: nat, c: Scheme)
    ensures |Decoded(m, p, left, history, sign, c).values| >= left
    decreases left
  {
    if left > 0 {
      var t := Turned(m, p, left, history, sign, c);
      DecodedLength(m, t.next, Minus(left, |t.values|), t.history, t.sign, c);
    }
  }

  /** The guard that the clearing of a run lacks, at every run read: it is shorter than what is left of the block. */
  ghost predicate RunsFit(m: Memory, p: nat, left: nat, history: nat, sign: nat, c: Scheme)
    decreases left
  {
    left > 0 ==>
      var r := c.first(m, p, history);
      var h := c.update(history, r.value + sign);
      if RunNext(h, left) then
        var run := c.run(m, r.next, h);
        run.value < left && RunsFit(m, run.next, left - 1 - run.value, 0, 1, c)
      else RunsFit(m, r.next, left - 1, h, 0, c)
  }

  lemma RunsFitTurn(m: Memory, p: nat, left: nat, history: nat, sign: nat, c: Scheme, t: Turn)
    requires left > 0 && t == Turned(m, p, left, history, sign, c)
    ensures RunsFit(m, p, left, history, sign, c)
       <==> |t.values| <= left && RunsFit(m, t.next, Minus(left, |t.values|), t.history, t.sign, c)
  {}

  /** Exactly the block is written when every run ends inside it; otherwise values are written past its end. */
  lemma {:induction false} WritesExactly(m: Memory, p: nat, left: nat, history: nat, sign: nat, c: Scheme)
    ensures |Decoded(m, p, left, history, sign, c).values| == left <==> RunsFit(m, p, left, history, sign, c)
    decreases left
  {
    if left > 0 {
      var t := Turned(m, p, left, history, sign, c);
      var after := Minus(left, |t.values|);
      WritesExactly(m, t.next, after, t.history, t.sign, c);
      DecodedLength(m, t.next, after, t.history, t.sign, c);
      DecodedSum(m, p, left, history, sign, c, t, after);
      RunsFitTurn(m, p, left, history, sign, c, t);
    }
  }

  lemma DecodedSum(m: Memory, p: nat, left: nat, history: nat, sign: nat, c: Scheme, t: Turn, after: nat)
    requires left > 0 && t == Turned(m, p, left, history, sign, c) && after == Minus(left, |t.values|)
    ensures |Decoded(m, p, left, history, sign, c).values|
         == |t.values| + |Decoded(m, t.next, after, t.history, t.sign, c).values|
  {}

  /** No more than 65534 values past the end of the block are ever written. */
  lemma {:induction false} WritesAtMost(m: Memory, p: nat, left: nat, history: nat, sign: nat, c: Scheme)
    requires forall q: nat, h: nat {:trigger c.run(m, q, h)} :: c.run(m, q, h).value <= 0xFFFF
    ensures |Decoded(m, p, left, history, sign, c).values| <= left + 0xFFFE
    decreases left
  {
    if left > 0 {
      var t := Turned(m, p, left, history, sign, c);
      var after := Minus(left, |t.values|);
      assert |t.values| <= left + 0xFFFE;
      WritesAtMost(m, t.next, after, t.history, t.sign, c);
      DecodedSum(m, p, left, history, sign, c, t, after);
      if after == 0 { assert |Decoded(m, t.next, after, t.history, t.sign, c).values| == 0; }
    }
  }

  // ----- The mirrored encoder -----

  /** The length of the run of zeros that starts the values. */
  function Run(values: seq<int>): (n: nat)
    ensures n <= |values|
  {
    if values == [] || values[0] != 0 then 0 else 1 + Run(values[1..])
  }

  lemma {:induction false} RunIs(values: seq<int>)
    ensures values == Zeros(Run(values)) + values[Run(values)..]
    ensures Run(values) < |values| ==> values[Run(values)] != 0
  {
    if values != [] && values[0] == 0 {
      var n := Run(values[1..]);
      RunIs(values[1..]);
      assert values[1 + n..] == values[1..][n..];
      assert Zeros(1 + n) == [0] + Zeros(n);
      assert values == [0] + values[1..];
    }
  }

  /** What the decoder can be sent: folded values below limit, and no 0 right after a run. */
  ghost predicate Sendable(values: seq<int>, sign: nat, c: Scheme, limit: nat) {
    && |values| <= 0x1_0000
    && (forall i :: 0 <= i < |values| ==> c.fold(values[i]) < limit)
    && (sign == 1 && values != [] ==> values[0] != 0)
  }

  /** One turn of the encoder: the first value with the run after it; how many values that is. */
  datatype Sent = Sent(bits: seq<nat>, count: nat, history: nat, sign: nat)

  function Send(values: seq<int>, history: nat, sign: nat, c: Scheme): (t: Sent)
    requires values != []
    ensures 1 <= t.count <= |values|
  {
    var d := c.fold(values[0]);
    var first := c.firstBits(Minus(d, sign), history);
    var h := c.update(history, d);
    if RunNext(h, |values|) then
      var n := Run(values[1..]);
      Sent(first + c.runBits(n, h), 1 + n, 0, 1)
    else
      Sent(first, 1, h, 0)
  }

  function Bits(values: seq<int>, history: nat, sign: nat, c: Scheme): seq<nat>
    decreases |values|
  {
    if values == [] then []
    else
      var t := Send(values, history, sign, c);
      t.bits + Bits(values[t.count..], t.history, t.sign, c)
  }

  lemma TurnReads(m: Memory, p: nat, values: seq<int>, history: nat, sign: nat, c: Scheme, limit: nat)
    requires c.Valid(m, limit) && State(history, sign) && Sendable(values, sign, c, limit) && values != []
    requires Carries(m, p, Send(values, history, sign, c).bits)
    ensures var t := Send(values, history, sign, c);
            Turned(m, p, |values|, history, sign, c) == Turn(values[..t.count], p + |t.bits|, t.history, t.sign)
  {
    var d := c.fold(values[0]);
    assert c.unfold(d) == values[0] && d >= sign;
    var first, h := c.firstBits(d - sign, history), c.update(history, d);
    if RunNext(h, |values|) {
      var n := Run(values[1..]);
      CarriesParts(m, p, first, c.runBits(n, h));
      assert c.run(m, p + |first|, h) == Read(n, p + |first| + |c.runBits(n, h)|);
      RunTaken(values);
    }
    assert c.first(m, p, history) == Read(d - sign, p + |first|);
  }

  lemma RunTaken(values: seq<int>)
    requires values != []
    ensures var n := Run(values[1..]);
            values[..1 + n] == [values[0]] + Zeros(n) && (1 + n < |values| ==> values[1 + n] != 0)
  {
    RunIs(values[1..]);
  }

  lemma TurnState(m: Memory, values: seq<int>, history: nat, sign: nat, c: Scheme, limit: nat)
    requires c.Valid(m, limit) && State(history, sign) && Sendable(values, sign, c, limit) && values != []
    ensures var t := Send(values, history, sign, c);
            State(t.history, t.sign) && Sendable(values[t.count..], t.sign, c, limit)
  {
    assert c.unfold(c.fold(values[0])) == values[0];
    RunTaken(values);
  }

  lemma DecodedStep(m: Memory, p: nat, left: nat, history: nat, sign: nat, c: Scheme, t: Turn, after: nat, rest: Values)
    requires left > 0 && t == Turned(m, p, left, history, sign, c) && after == Minus(left, |t.values|)
    requires rest == Decoded(m, t.next, after, t.history, t.sign, c)
    ensures Decoded(m, p, left, history, sign, c) == Values(t.values + rest.values, rest.next)
  {}

  lemma BitsStep(values: seq<int>, history: nat, sign: nat, c: Scheme, t: Sent, rest: seq<nat>)
    requires values != [] && t == Send(values, history, sign, c)
    requires rest == Bits(values[t.count..], t.history, t.sign, c)
    ensures Bits(values, history, sign, c) == t.bits + rest
  {}

  /** The bits at p are those of the values, and reading them gives the values. */
  ghost predicate Returned(m: Memory, p: nat, values: seq<int>, history: nat, sign: nat, c: Scheme) {
    forall u {:trigger Unfold(u)} :: u == 0 ==>
      Decoded(m, p, |values|, history, sign, c) == Values(values, p + |Bits(values, history, sign, c)|)
  }

  ghost predicate Written(m: Memory, p: nat, values: seq<int>, history: nat, sign: nat, c: Scheme) {
    forall u {:trigger Unfold(u)} :: u == 0 ==> Carries(m, p, Bits(values, history, sign, c))
  }

  lemma WrittenParts(m: Memory, p: nat, values: seq<int>, history: nat, sign: nat, c: Scheme, t: Sent)
    requires values != [] && Written(m, p, values, history, sign, c) && t == Send(values, history, sign, c)
    ensures Carries(m, p, t.bits) && Written(m, p + |t.bits|, values[t.count..], t.history, t.sign, c)
  {
    assert Unfold(0);
    var rest := Bits(values[t.count..], t.history, t.sign, c);
    BitsStep(values, history, sign, c, t, rest);
    CarriesParts(m, p, t.bits, rest);
  }

  lemma Resplit(s: seq<int>, n: nat)
    requires n <= |s|
    ensures s[..n] + s[n..] == s && |s[n..]| == Minus(|s|, |s[..n]|)
  {}

  lemma ReturnedTurn(m: Memory, p: nat, values: seq<int>, history: nat, sign: nat, c: Scheme, t: Sent)
    requires values != [] && t == Send(values, history, sign, c)
    requires Turned(m, p, |values|, history, sign, c) == Turn(values[..t.count], p + |t.bits|, t.history, t.sign)
    requires Returned(m, p + |t.bits|, values[t.count..], t.history, t.sign, c)
    ensures Returned(m, p, values, history, sign, c)
  {
    var rest := Bits(values[t.count..], t.history, t.sign, c);
    BitsStep(values, history, sign, c, t, rest);
    ReturnedRest(m, p + |t.bits|, values[t.count..], t.history, t.sign, c, rest);
    DecodedSplit(m, p, values, history, sign, c, t.count, p + |t.bits|, t.history, t.sign, p + |t.bits| + |rest|);
  }

  lemma DecodedSplit(m: Memory, p: nat, values: seq<int>, history: nat, sign: nat, c: Scheme,
                     n: nat, q: nat, history': nat, sign': nat, next: nat)
    requires 0 < n <= |values| && Turned(m, p, |values|, history, sign, c) == Turn(values[..n], q, history', sign')
    requires Decoded(m, q, |values[n..]|, history', sign', c) == Values(values[n..], next)
    ensures Decoded(m, p, |values|, history, sign, c) == Values(values, next)
  {
    Resplit(values, n);
    DecodedStep(m, p, |values|, history, sign, c, Turn(values[..n], q, history', sign'), |values[n..]|,
          Values(values[n..], next));
  }

  lemma ReturnedRest(m: Memory, p: nat, values: seq<int>, history: nat, sign: nat, c: Scheme, bits: seq<nat>)
    requires Returned(m, p, values, history, sign, c) && bits == Bits(values, history, sign, c)
    ensures Decoded(m, p, |values|, history, sign, c) == Values(values, p + |bits|)
  {
    assert Unfold(0);
  }

  /** Every block the encoder accepts comes back, from any memory that holds its bits. */
  lemma {:induction false} DecodesBack(m: Memory, p: nat, values: seq<int>, history: nat, sign: nat, c: Scheme,
        limit: nat)
    requires c.Valid(m, limit) && State(history, sign) && Sendable(values, sign, c, limit)
    requires Written(m, p, values, history, sign, c)
    ensures Returned(m, p, values, history, sign, c)
    decreases |values|
  {
    if values == [] {
      assert Decoded(m, p, |values|, history, sign, c) == Values(values, p) && Bits(values, history, sign, c) == [];
    } else {
      var t := Send(values, history, sign, c);
      WrittenParts(m, p, values, history, sign, c, t);
      TurnReads(m, p, values, history, sign, c, limit);
      TurnState(m, values, history, sign, c, limit);
      DecodesBack(m, p + |t.bits|, values[t.count..], t.history, t.sign, c, limit);
      ReturnedTurn(m, p, values, history, sign, c, t);
    }
  }

  // ----- The scheme of entropy_rice_decode -----

  function KFor(history: nat, s: Params): (k: nat)
    requires s.Valid()
    ensures 1 <= k <= s.kmodifier
  {
    Log2Three(history / 512 + 3);
    KOf(history, s.kmodifier)
  }

  lemma Log2Three(v: nat)
    requires v >= 3
    ensures Log2(v) >= 1
  {}

  /** The k for a run; it is only asked for when the history is in [1, 127]. */
  function RunKFor(history: nat): (k: nat)
    ensures 2 <= k <= 7
  {
    if 1 <= history < 128 then
      RunKInRange(history);
      RunKOf(history)
    else 2
  }

  function UpdatedFor(history: nat, value: nat, s: Params): nat
    requires s.Valid()
  {
    Decay(history, s.mult);
    Updated(history, value, s.mult)
  }

  function RiceScheme(s: Params): Scheme
    requires s.Valid()
  {
    Scheme((m, p, h) => Value(m, p, s.size, KFor(h, s), 32), (m, p, h) => Value(m, p, 16, RunKFor(h), s.kmodifier),
           (v, h) => ValueBits(v, s.size, KFor(h, s), 32), (v, h) => ValueBits(v, 16, RunKFor(h), s.kmodifier),
           (h, d) => UpdatedFor(h, d, s), Fold, Unfolded)
  }

  ghost predicate IsRice(c: Scheme, s: Params)
    requires s.Valid()
  {
    forall u {:trigger Unfold(u)} :: u == 0 ==> c == RiceScheme(s)
  }

  lemma RiceReads(c: Scheme, s: Params, m: Memory, p: nat, h: nat)
    requires s.Valid() && IsRice(c, s)
    ensures c.first(m, p, h) == Value(m, p, s.size, KFor(h, s), 32)
    ensures c.run(m, p, h) == Value(m, p, 16, RunKFor(h), s.kmodifier)
  {
    assert Unfold(0);
  }

  lemma RiceUpdates(c: Scheme, s: Params, h: nat, d: nat)
    requires s.Valid() && IsRice(c, s)
    ensures c.update(h, d) == UpdatedFor(h, d, s) && c.unfold(d) == Unfolded(d)
  {
    assert Unfold(0);
  }

  lemma RiceSchemeValid(m: Memory, s: Params)
    requires s.Valid()
    ensures RiceScheme(s).Valid(m, Pow2(s.size))
  {
    var c := RiceScheme(s);
    forall p: nat, v: nat, h: nat | v < Pow2(s.size) && Carries(m, p, c.firstBits(v, h))
      ensures c.first(m, p, h) == Read(v, p + |c.firstBits(v, h)|)
    {
      ValueReads(m, p, v, s.size, KFor(h, s), 32);
    }
    forall p: nat, v: nat, h: nat | 1 <= h < 128 && v <= 0xFFFF && Carries(m, p, c.runBits(v, h))
      ensures c.run(m, p, h) == Read(v, p + |c.runBits(v, h)|)
    {
      Pow2Few(7, 7, 16);
      ValueReads(m, p, v, 16, RunKFor(h), s.kmodifier);
    }
    forall v ensures c.unfold(c.fold(v)) == v && (v != 0 ==> c.fold(v) > 0) { FoldUnfold(v); }
    forall h: nat, d: nat | h <= HISTORY_MAX && (h > 0 || d > 0) ensures 1 <= c.update(h, d) <= HISTORY_MAX {
      HistoryInRange(h, d, s.mult);
    }
  }

  lemma RiceWritesAtMost(m: Memory, p: nat, left: nat, history: nat, sign: nat, s: Params)
    requires s.Valid()
    ensures |Decoded(m, p, left, history, sign, RiceScheme(s)).values| <= left + 0xFFFE
  {
    var c := RiceScheme(s);
    forall q: nat, h: nat ensures c.run(m, q, h).value <= 0xFFFF { RunIsShort(m, q, RunKFor(h), s.kmodifier, 16); }
    WritesAtMost(m, p, left, history, sign, c);
  }

  /** A 0 bit and then ones: the code of 0, and a run of 65535. */
  function LongRun(): Memory { i => if i == 0 then 0x7F else 0xFF }

  lemma {:induction false} AllOnes(m: Memory, p: nat, n: nat)
    requires forall i :: p <= i < p + n ==> Bit(m, i) == 1
    ensures Number(m, p, n) == Pow2(n) - 1
  {
    if n > 0 { AllOnes(m, p, n - 1); }
  }

  lemma LongRunBits(p: nat)
    ensures Bit(LongRun(), p) == if p == 0 then 0 else 1
  {
    var byte := LongRun()(p / 8);
    assert byte == if p / 8 == 0 then 0x7F else 0xFF;
    OnesOfByte(7 - p % 8);
  }

  lemma OnesOfByte(n: nat)
    requires n <= 7
    ensures 0xFF / Pow2(n) % 2 == 1 && 0x7F / Pow2(n) % 2 == if n == 7 then 0 else 1
  {
    assert Pow2(0) == 1 && Pow2(1) == 2 && Pow2(2) == 4 && Pow2(3) == 8;
    assert Pow2(4) == 16 && Pow2(5) == 32 && Pow2(6) == 64 && Pow2(7) == 128;
  }

  /** Under a history below 128, k is 1, and the 0 bit is the code of 0. */
  lemma ZeroCode(m: Memory, p: nat, history: nat, s: Params, width: nat)
    requires s.Valid() && history < 128 && Bit(m, p) == 0
    ensures Value(m, p, s.size, KFor(history, s), width) == Read(0, p + 1)
  {
    assert history / 512 + 3 == 3 && Log2(3) == 1;
    assert KFor(history, s) == 1;
    assert Prefix(m, p) == 0;
  }

  /** Nine ones and then sixteen: an escape with the largest number. */
  lemma LongestRun(m: Memory, p: nat, k: nat, width: nat, n: nat)
    requires n == 16 && forall i :: p <= i < p + 9 + n ==> Bit(m, i) == 1
    ensures Value(m, p, n, k, width) == Read(0xFFFF, p + 9 + n)
  {
    OnesIs(m, p, p + RICE_THRESHOLD + 1, RICE_THRESHOLD + 1);
    AllOnes(m, p + 9, n);
    Pow2Few(7, 7, n);
  }

  /** The bound is reached: from every history below 128 and with every setting, this stream makes the decoder write
      65534 values past a block of two. */
  lemma WritesPastTheEnd(history: nat, s: Params)
    requires s.Valid() && 1 <= history < 128
    ensures |Decoded(LongRun(), 0, 2, history, 0, RiceScheme(s)).values| == 2 + 0xFFFE
    ensures !RunsFit(LongRun(), 0, 2, history, 0, RiceScheme(s))
  {
    LongRunTurn(LongRun(), 0, 2, history, s, RiceScheme(s));
    WritesExactly(LongRun(), 0, 2, history, 0, RiceScheme(s));
  }

  lemma LongRunTurn(m: Memory, p: nat, left: nat, history: nat, s: Params, c: Scheme)
    requires s.Valid() && 1 <= history < 128 && c == RiceScheme(s) && m == LongRun() && p == 0 && left == 2
    ensures |Decoded(m, p, left, history, 0, c).values| == 0x1_0000
  {
    forall i: nat ensures Bit(m, i) == if i == 0 then 0 else 1 { LongRunBits(i); }
    ZeroCode(m, p, history, s, 32);
    HistoryInRange(history, 0, s.mult);
    var h := c.update(history, 0);
    LongestRun(m, p + 1, RunKFor(h), s.kmodifier, 16);
    var t := Turned(m, p, left, history, 0, c);
    assert |t.values| == 0x1_0000;
    DecodedSum(m, p, left, history, 0, c, t, 0);
  }

  /** Lossless: residuals whose folded form fits the sample width are decoded to themselves. */
  lemma RiceLossless(m: Memory, p: nat, values: seq<int>, initial: nat, s: Params)
    requires s.Valid() && 1 <= initial <= HISTORY_MAX && |values| <= 0x1_0000
    requires forall i :: 0 <= i < |values| ==> Fold(values[i]) < Pow2(s.size)
    requires Carries(m, p, Bits(values, initial, 0, RiceScheme(s)))
    ensures Decoded(m, p, |values|, initial, 0, RiceScheme(s))
         == Values(values, p + |Bits(values, initial, 0, RiceScheme(s))|)
  {
    var c := RiceScheme(s);
    RiceSchemeValid(m, s);
    assert Sendable(values, 0, c, Pow2(s.size)) by {
      forall i | 0 <= i < |values| ensures c.fold(values[i]) < Pow2(s.size) {
        assert c.fold(values[i]) == Fold(values[i]);
      }
    }
    DecodesBack(m, p, values, initial, 0, c, Pow2(s.size));
    assert Unfold(0);
  }

  // ----- The decoder in place -----

  /** C's int on the machines the decoder is built for: what is assigned to it does not overflow. */
  type i32 = x: int | -0x8000_0000 <= x < 0x8000_0000

  method CountPrefix(r: BitReader) returns (x: i32)
    requires r.Valid()
    modifies r
    ensures r.Valid() && x == Prefix(r.memory, old(r.Cursor()))
    ensures r.Cursor() == old(r.Cursor()) + if x > RICE_THRESHOLD then x else x + 1
  {
    ghost var p, e := r.Cursor(), r.Cursor() + RICE_THRESHOLD + 1;
    x := 0;
    while x <= RICE_THRESHOLD
      invariant 0 <= x <= RICE_THRESHOLD + 1 && r.Valid() && r.Cursor() == p + x
      invariant Ones(r.memory, p, e) == x + Ones(r.memory, p + x, e)
    {
      var bit := r.ReadBit();
      if bit == 0 { break; }
      x := x + 1;
    }
  }

  /** entropy_decode_value. */
  method EntropyDecodeValue(r: BitReader, size: nat, k: nat, width: nat) returns (x: nat)
    requires r.Valid() && 1 <= k <= 16 && 1 <= size <= 24 && width >= 1
    modifies r
    ensures r.Valid() && Read(x, r.Cursor()) == Value(r.memory, old(r.Cursor()), size, k, width)
    ensures x < 0x100_0000
  {
    ghost var m, p := r.memory, r.Cursor();
    var prefix := CountPrefix(r);
    if prefix > RICE_THRESHOLD {
      var value := r.ReadBits(size);
      Masked(m, p + prefix, size, value);
      x := value % Pow2(size);
    } else {
      x := DecodeShort(r, p, prefix, k, width);
    }
    ValueFits(m, p, size, k, width);
  }

  /** The part of entropy_decode_value after a prefix that is not too long. */
  method DecodeShort(r: BitReader, ghost p: nat, prefix: nat, k: nat, width: nat) returns (x: nat)
    requires r.Valid() && 1 <= k <= 16 && width >= 1 && prefix <= RICE_THRESHOLD && r.Cursor() == p + prefix + 1
    modifies r
    ensures r.Valid() && Read(x, r.Cursor()) == Short(r.memory, p, prefix, k, width)
  {
    x := prefix;
    if k != 1 {
      ghost var q := r.Cursor();
      var extra := r.ReadBits(k);
      ReadsOnly(r.memory, q, k, extra);
      BaseFits(prefix, k, width);
      var base: i32 := Base(prefix, k, width);
      x := base;
      if extra > 1 { x := x + (extra - 1); } else { r.UnreadBits(1); }
    }
  }

  lemma Masked(m: Memory, p: nat, size: nat, value: nat)
    requires Reads(m, p, size, value)
    ensures value % Pow2(size) == Number(m, p, size)
  {
    ReadsOnly(m, p, size, value);
    NumberBound(m, p, size);
    DivUnique(value, Pow2(size), 0, value);
  }

  lemma Pow2Large(k: nat, size: nat, a: nat, b: nat)
    requires k <= a == 16 && size <= b == 24
    ensures Pow2(k) <= 0x1_0000 && Pow2(size) <= 0x100_0000
  {
    Pow2Mono(k, a);
    Pow2Mono(size, b);
    Pow2Bytes(8, a, b);
  }

  lemma ValueFits(m: Memory, p: nat, size: nat, k: nat, width: nat)
    requires 1 <= k <= 16 && size <= 24
    ensures Value(m, p, size, k, width).value < 0x100_0000
  {
    Pow2Large(k, size, 16, 24);
    ValueBound(m, p, Prefix(m, p), size, k, width, 0x100_0000);
  }

  lemma BaseFits(x: nat, k: nat, width: nat)
    requires x <= RICE_THRESHOLD && 1 <= k <= 16
    ensures Base(x, k, width) < 0x10_0000
  {
    Pow2Large(k, 24, 16, 24);
    BaseBound(x, k, width);
  }

  /** The first part of a turn: the decoded value with the sign modifier, and the new history. */
  method DecodeFirst(r: BitReader, history0: nat, signModifier: nat, s: Params, ghost c: Scheme)
    returns (decodedValue: nat, history: nat)
    requires r.Valid() && s.Valid() && State(history0, signModifier) && IsRice(c, s)
    modifies r
    ensures r.Valid() && 1 <= history <= HISTORY_MAX && signModifier <= decodedValue <= 0x100_0000
    ensures Read(decodedValue - signModifier, r.Cursor()) == c.first(r.memory, old(r.Cursor()), history0)
    ensures history == c.update(history0, decodedValue) && c.unfold(decodedValue) == Unfolded(decodedValue)
  {
    RiceReads(c, s, r.memory, r.Cursor(), history0);
    KInRange(history0, s.kmodifier);
    var k: i32 := 31 - s.kmodifier - CountLeadingZeros(history0 / 512 + 3);
    if k < 0 { k := k + s.kmodifier; } else { k := s.kmodifier; }
    decodedValue := EntropyDecodeValue(r, s.size, k, 32);
    decodedValue := decodedValue + signModifier;
    HistoryInRange(history0, decodedValue, s.mult);
    history := Update(history0, decodedValue, s.mult);
    RiceUpdates(c, s, history0, decodedValue);
  }

  /** The update of the history, in C's integers. */
  method Update(history0: nat, decodedValue: nat, mult: nat) returns (history: i32)
    requires history0 <= HISTORY_MAX && decodedValue <= 0x100_0000 && 1 <= mult <= 64
    requires history0 > 0 || decodedValue > 0
    ensures history == Updated(history0, decodedValue, mult)
  {
    HistoryInRange(history0, decodedValue, mult);
    ProductFits(decodedValue, mult);
    var growth: i32, decay: i32 := decodedValue * mult, history0 * mult;
    var change: i32 := growth - decay / 512;
    history := history0 + change;
    if decodedValue > 0xFFFF { history := 0xFFFF; }
  }

  /** The length of a run of zeros. */
  method DecodeRun(r: BitReader, history: nat, s: Params, ghost c: Scheme) returns (blockSize: nat)
    requires r.Valid() && s.Valid() && 1 <= history < 128 && IsRice(c, s)
    modifies r
    ensures r.Valid() && blockSize <= 0xFFFF
    ensures Read(blockSize, r.Cursor()) == c.run(r.memory, old(r.Cursor()), history)
  {
    RiceReads(c, s, r.memory, r.Cursor(), history);
    RunKInRange(history);
    RunIsShort(r.memory, r.Cursor(), RunKFor(history), s.kmodifier, 16);
    var k: i32 := CountLeadingZeros(history) + (history + 16) / 64 - 24;
    blockSize := EntropyDecodeValue(r, 16, k, s.kmodifier);
  }

  /** One turn of the loop: the values stored, the new history and the new sign modifier. */
  method DecodeTurn(r: BitReader, left: nat, history0: nat, signModifier0: nat, s: Params, ghost c: Scheme)
    returns (values: seq<int>, history: nat, signModifier: nat)
    requires r.Valid() && s.Valid() && left > 0 && State(history0, signModifier0) && IsRice(c, s)
    modifies r
    ensures r.Valid() && State(history, signModifier)
    ensures Turn(values, r.Cursor(), history, signModifier)
         == Turned(r.memory, old(r.Cursor()), left, history0, signModifier0, c)
  {
    var decodedValue;
    decodedValue, history := DecodeFirst(r, history0, signModifier0, s, c);
    var finalValue: i32 := (decodedValue + 1) / 2;
    if decodedValue % 2 == 1 { finalValue := -finalValue; }
    values := [finalValue];
    signModifier := 0;
    if history < 128 && left > 1 {
      var blockSize := DecodeRun(r, history, s, c);
      if blockSize > 0 { values := values + Zeros(blockSize); }
      signModifier := SignAfter(blockSize);
      history := 0;
    }
  }

  /** The sign modifier after a run; a run is never longer than 0xFFFF. */
  function SignAfter(blockSize: nat): nat { if blockSize > 0xFFFF then 0 else 1 }

  lemma ProductFits(value: nat, mult: nat)
    requires value <= 0x100_0000 && mult <= 64
    ensures value * mult <= 0x4000_0000
  {
    Bounded(value, mult, 0x100_0000, 64);
  }

  /** entropy_rice_decode. The values written to the output buffer from its start on are returned as a sequence. */
  method EntropyRiceDecode(r: BitReader, outputSize: nat, initialHistory: nat, s: Params) returns (out: seq<int>)
    requires r.Valid() && s.Valid() && 1 <= initialHistory <= HISTORY_MAX
    modifies r
    ensures r.Valid()
    ensures Values(out, r.Cursor()) == Decoded(r.memory, old(r.Cursor()), outputSize, initialHistory, 0, RiceScheme(s))
  {
    out := DecodeAll(r, outputSize, initialHistory, s, RiceScheme(s));
  }

  method DecodeAll(r: BitReader, outputSize: nat, initialHistory: nat, s: Params, ghost c: Scheme)
        returns (out: seq<int>)
    requires r.Valid() && s.Valid() && 1 <= initialHistory <= HISTORY_MAX && IsRice(c, s)
    modifies r
    ensures r.Valid()
    ensures Values(out, r.Cursor()) == Decoded(r.memory, old(r.Cursor()), outputSize, initialHistory, 0, c)
  {
    ghost var m := r.memory;
    RemainingStart(m, r.Cursor(), outputSize, initialHistory, 0, c);
    ghost var whole := Decoded(m, r.Cursor(), outputSize, initialHistory, 0, c);
    var history: nat, signModifier: nat, outputCount := initialHistory, 0, 0;
    out := [];
    while outputCount < outputSize
      invariant r.Valid() && State(history, signModifier) && |out| == outputCount
      invariant Remaining(whole, out, m, r.Cursor(), Minus(outputSize, outputCount), history, signModifier, c)
    {
      ghost var t := Turned(m, r.Cursor(), outputSize - outputCount, history, signModifier, c);
      RemainingTurn(whole, out, m, r.Cursor(), outputSize - outputCount, history, signModifier, c, t);
      var values;
      values, history, signModifier := DecodeTurn(r, outputSize - outputCount, history, signModifier, s, c);
      out := out + values;
      outputCount := outputCount + |values|;
    }
  }

  /** The values so far, followed by what is still to be decoded, are the whole. */
  ghost predicate Remaining(whole: Values, out: seq<int>, m: Memory, p: nat, left: nat, history: nat, sign: nat,
        c: Scheme) {
    var rest := Decoded(m, p, left, history, sign, c);
    whole == Values(out + rest.values, rest.next)
  }

  lemma RemainingStart(m: Memory, p: nat, left: nat, history: nat, sign: nat, c: Scheme)
    ensures Remaining(Decoded(m, p, left, history, sign, c), [], m, p, left, history, sign, c)
  {
    var rest := Decoded(m, p, left, history, sign, c);
    assert [] + rest.values == rest.values;
  }

  lemma RemainingTurn(whole: Values, out: seq<int>, m: Memory, p: nat, left: nat, history: nat, sign: nat, c: Scheme,
        t: Turn)
    requires left > 0 && t == Turned(m, p, left, history, sign, c)
          && Remaining(whole, out, m, p, left, history, sign, c)
    ensures Remaining(whole, out + t.values, m, t.next, Minus(left, |t.values|), t.history, t.sign, c)
  {
    var after := Minus(left, |t.values|);
    var rest := Decoded(m, t.next, after, t.history, t.sign, c);
    DecodedStep(m, p, left, history, sign, c, t, after, rest);
    assert out + (t.values + rest.values) == (out + t.values) + rest.values;
  }
}
