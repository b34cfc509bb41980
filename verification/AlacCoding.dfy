/** What the Rice decoder reads, in numbers and bits: the parameter of a code from its history, the codes, and how one
    value leads to the next. Nothing here is stated through the encoder. */
module AlacCoding {
  import opened Words
  import opened AlacBits
  import opened AlacRice

  // ---- The parameter ---------------------------------------------------------------------------------------

  lemma Log2Is(v: nat, k: nat)
    requires Pow2(k) <= v < Pow2(k + 1)
    ensures Log2(v) == k
  {
    Log2Below(v, k + 1);
    Log2Least(v, k);
  }

  /** k is the number of bits of history / 512 + 3 after the first, but no more than the modifier. */
  lemma ParameterIs(history: nat, kmodifier: nat, k: nat)
    requires history <= HISTORY_MAX && 1 <= k <= kmodifier && Pow2(k) <= history / 512 + 3
    requires k < kmodifier ==> history / 512 + 3 < Pow2(k + 1)
    ensures KOf(history, kmodifier) == k
  {
    var v := history / 512 + 3;
    if k < kmodifier { Log2Is(v, k); } else { Log2Least(v, k); }
  }

  /** The parameter of a run, by the history. */
  lemma RunParameterIs(history: nat)
    requires 1 <= history < 128
    ensures RunKOf(history)
         == if history == 1 then 7 else if history < 4 then 6 else if history < 8 then 5 else if history < 16 then 4
            else if history < 32 then 3 else if history < 48 then 2 else if history < 64 then 3
            else if history < 112 then 2 else 3
  {
    SmallLog2(history);
  }

  /** The history is a weighted mean of what it was and of 512 times the value, rounded up; a large value resets it. */
  lemma HistoryIsMean(history: nat, value: nat, mult: nat)
    ensures value <= 0xFFFF ==>
              0 <= 512 * Updated(history, value, mult) - ((512 - mult) * history + mult * (512 * value)) < 512
    ensures value > 0xFFFF ==> Updated(history, value, mult) == 0xFFFF
  {
    Bounded(0, 0, history, mult);
    Weighted(history, value, mult, history * mult / 512);
  }

  lemma Weighted(h: nat, v: nat, m: nat, q: nat)
    requires q == h * m / 512
    ensures 0 <= 512 * (h + v * m - q) - ((512 - m) * h + m * (512 * v)) < 512
  {
    assert (512 - m) * h == 512 * h - h * m;
    assert m * (512 * v) == 512 * (v * m);
  }

  /** Signs alternate from the least number on: 0, -1, 1, -2, and so on. */
  lemma SignsAre(n: nat)
    ensures Unfolded(2 * n) == n && Unfolded(2 * n + 1) == -1 - n
  {}

  lemma SignIs(d: nat)
    ensures Unfolded(d) == if d % 2 == 0 then d / 2 else -(d / 2) - 1
  {}

  // ---- The codes -----------------------------------------------------------------------------------------

  /** The bits of a byte, the highest first. */
  lemma BitsOfByte(m: Memory, i: nat)
    ensures m(i) == 128 * Bit(m, 8 * i) + 64 * Bit(m, 8 * i + 1) + 32 * Bit(m, 8 * i + 2) + 16 * Bit(m, 8 * i + 3)
                    + 8 * Bit(m, 8 * i + 4) + 4 * Bit(m, 8 * i + 5) + 2 * Bit(m, 8 * i + 6) + Bit(m, 8 * i + 7)
  {
    WholeByte(m, 8 * i, i, 8);
    Eight(m, 8 * i, 8);
  }

  lemma Eight(m: Memory, p: nat, n: nat)
    requires n == 8
    ensures Number(m, p, n) == 128 * Bit(m, p) + 64 * Bit(m, p + 1) + 32 * Bit(m, p + 2) + 16 * Bit(m, p + 3)
                               + 8 * Bit(m, p + 4) + 4 * Bit(m, p + 5) + 2 * Bit(m, p + 6) + Bit(m, p + 7)
  {
    Four(m, p, n - 4);
    assert Number(m, p, n - 3) == 2 * Number(m, p, n - 4) + Bit(m, p + 4);
    assert Number(m, p, n - 2) == 2 * Number(m, p, n - 3) + Bit(m, p + 5);
    assert Number(m, p, n - 1) == 2 * Number(m, p, n - 2) + Bit(m, p + 6);
  }

  lemma Four(m: Memory, p: nat, n: nat)
    requires n == 4
    ensures Number(m, p, n) == 8 * Bit(m, p) + 4 * Bit(m, p + 1) + 2 * Bit(m, p + 2) + Bit(m, p + 3)
  {
    assert Number(m, p, n - 4) == 0;
    assert Number(m, p, n - 3) == Bit(m, p);
    assert Number(m, p, n - 2) == 2 * Number(m, p, n - 3) + Bit(m, p + 1);
    assert Number(m, p, n - 1) == 2 * Number(m, p, n - 2) + Bit(m, p + 2);
  }

  /** x ones, no more than eight, and a zero, with parameter 1: the value is x. */
  lemma UnaryRead(m: Memory, p: nat, x: nat, size: nat, k: nat, width: nat)
    requires x <= 8 && k == 1 && Carries(m, p, Repeat(1, x) + [0])
    ensures Value(m, p, size, k, width) == Read(x, p + x + 1)
  {
    CarriesParts(m, p, Repeat(1, x), [0]);
    PrefixIs(m, p, x);
  }

  /** With a larger parameter k bits follow, which hold one more than what the value has above its prefix; when they are
      less than 2 the value has nothing above, and the last of them belongs to the next code. A one of the prefix is
      worth 2^k - 1, masked to width bits. */
  lemma CodeRead(m: Memory, p: nat, x: nat, e: nat, size: nat, k: nat, width: nat)
    requires x <= 8 && k >= 2 && e < Pow2(k) && Carries(m, p, Repeat(1, x) + [0] + BitsOf(e, k))
    ensures var base := x * (Pow2(if k < width then k else width) - 1);
            Value(m, p, size, k, width)
              == if e >= 2 then Read(base + e - 1, p + x + 1 + k) else Read(base, p + x + k)
  {
    CarriesParts(m, p, Repeat(1, x) + [0], BitsOf(e, k));
    CarriesParts(m, p, Repeat(1, x), [0]);
    PrefixIs(m, p, x);
    CarriesNumber(m, p + x + 1, e, k);
  }

  /** The shortest code of a prefix: k - 1 zeros, whatever the next code begins with. */
  lemma ZeroRead(m: Memory, p: nat, x: nat, size: nat, k: nat, width: nat)
    requires x <= 8 && k >= 2 && Carries(m, p, Repeat(1, x) + [0] + Repeat(0, k - 1))
    ensures Value(m, p, size, k, width) == Read(x * (Pow2(if k < width then k else width) - 1), p + x + k)
  {
    CarriesParts(m, p, Repeat(1, x) + [0], Repeat(0, k - 1));
    CarriesParts(m, p, Repeat(1, x), [0]);
    PrefixIs(m, p, x);
    ZeroNumber(m, p + x + 1, k - 1);
  }

  /** After nine ones the value stands as it is, in size bits. */
  lemma EscapeRead(m: Memory, p: nat, v: nat, size: nat, k: nat, width: nat)
    requires v < Pow2(size) && Carries(m, p, Repeat(1, 9) + BitsOf(v, size))
    ensures Value(m, p, size, k, width) == Read(v, p + 9 + size)
  {
    CarriesParts(m, p, Repeat(1, 9), BitsOf(v, size));
    PrefixIs(m, p, 9);
    CarriesNumber(m, p + 9, v, size);
  }

  // ---- One turn --------------------------------------------------------------------------------------------

  /** A value v, to which a run before it adds 1, under the parameter of the history; and the history it leads to.
      Unless that is below 128 and the block goes on, the turn ends here. */
  lemma ValueTurn(m: Memory, p: nat, left: nat, history: nat, sign: nat, s: Params, c: Scheme, k: nat, v: nat,
                  next: nat, h: nat)
    requires s.Valid() && IsRice(c, s) && KFor(history, s) == k && Value(m, p, s.size, k, 32) == Read(v, next)
    requires UpdatedFor(history, v + sign, s) == h && (h >= 128 || left <= 1)
    ensures Turned(m, p, left, history, sign, c)
         == Turn([if (v + sign) % 2 == 0 then (v + sign) / 2 else -((v + sign) / 2) - 1], next, h, 0)
  {
    RiceReads(c, s, m, p, history);
    RiceUpdates(c, s, history, v + sign);
    SignIs(v + sign);
  }

  /** Otherwise the length of a run of zeros follows, in 16 bits if escaped; the history becomes 0, and the next value
      counts from 1. */
  lemma RunTurn(m: Memory, p: nat, left: nat, history: nat, sign: nat, s: Params, c: Scheme, k: nat, v: nat, next: nat,
                h: nat, rk: nat, n: nat, after: nat)
    requires s.Valid() && IsRice(c, s) && KFor(history, s) == k && Value(m, p, s.size, k, 32) == Read(v, next)
    requires UpdatedFor(history, v + sign, s) == h && 1 <= h < 128 && left > 1
    requires RunKFor(h) == rk && Value(m, next, 16, rk, s.kmodifier) == Read(n, after)
    ensures Turned(m, p, left, history, sign, c)
         == Turn([if (v + sign) % 2 == 0 then (v + sign) / 2 else -((v + sign) / 2) - 1] + Zeros(n), after, 0, 1)
  {
    RiceReads(c, s, m, p, history);
    RiceReads(c, s, m, next, h);
    RiceUpdates(c, s, history, v + sign);
    SignIs(v + sign);
  }

  /** A turn that gives n values, and what the rest gives. */
  lemma BlockTurn(m: Memory, p: nat, left: nat, history: nat, sign: nat, c: Scheme, t: Turn, rest: Values, more: nat)
    requires left > 0 && Turned(m, p, left, history, sign, c) == t && left == |t.values| + more
    requires Decoded(m, t.next, more, t.history, t.sign, c) == rest
    ensures Decoded(m, p, left, history, sign, c) == Values(t.values + rest.values, rest.next)
  {}

  lemma BlockEnd(m: Memory, p: nat, history: nat, sign: nat, c: Scheme, zero: nat)
    requires zero == 0
    ensures Decoded(m, p, zero, history, sign, c) == Values([], p)
  {}

  // ---- A block -----------------------------------------------------------------------------------------------

  /** Five values from 18 bits, with the settings of the usual cookie: a value and a run of two zeros, a value after the
      run and a run of none, and the last value. */
  lemma FiveValues(m: Memory, p: nat, s: Params, c: Scheme, left: nat)
    requires s == Params(16, 14, 40) && IsRice(c, s) && left == 5
    requires Carries(m, p, [1, 1, 0]) && Carries(m, p + 3, [0, 1, 1]) && Carries(m, p + 6, [1, 1, 0])
    requires Carries(m, p + 9, [0, 0, 0]) && Carries(m, p + 12, [1, 1, 1, 1, 1, 0])
    ensures Decoded(m, p, left, 10, 0, c) == Values([1, 0, 0, -2, 3], p + 18)
  {
    var r0 := FirstTurn(m, p, s, c, left);
    var r1 := SecondTurn(m, p + 6, s, c, left - 3);
    var r2 := ThirdTurn(m, p + 12, s, c, left - 4);
    BlockEnd(m, p + 18, 240, 0, c, left - 5);
    BlockTurn(m, p + 12, left - 4, 0, 1, c, r2, Values([], p + 18), left - 5);
    BlockTurn(m, p + 6, left - 3, 0, 1, c, r1, Values([3], p + 18), left - 4);
    BlockTurn(m, p, left, 10, 0, c, r0, Values([-2, 3], p + 18), left - 3);
    assert [1, 0, 0] + [-2, 3] == [1, 0, 0, -2, 3];
  }

  lemma LeastParameter(history: nat, s: Params, k: nat)
    requires s == Params(16, 14, 40) && history < 512 && k == 1
    ensures KFor(history, s) == k
  {
    assert Pow2(k) == 2 && Pow2(k + 1) == 4 by { assert Pow2(k - 1) == 1; }
    ParameterIs(history, s.kmodifier, k);
  }

  lemma TwoOnes(v: nat, n: nat)
    requires v == 3 && n == 2
    ensures BitsOf(v, n) == [1, 1] && v < Pow2(n)
  {
    assert BitsOf(v / 2, n - 1) == BitsOf(v / 4, n - 2) + [1] == [1];
    assert Pow2(n - 2) == 1 && Pow2(n - 1) == 2;
  }

  lemma FirstCodes(m: Memory, p: nat, s: Params)
    requires s == Params(16, 14, 40) && Carries(m, p, [1, 1, 0]) && Carries(m, p + 3, [0, 1, 1])
    ensures Value(m, p, s.size, 1, 32) == Read(2, p + 3) && Value(m, p + 3, 16, 2, s.kmodifier) == Read(2, p + 6)
  {
    var two := 2;
    assert Repeat(1, 2) + [0] == [1, 1, 0];
    UnaryRead(m, p, 2, s.size, 1, 32);
    TwoOnes(3, two);
    assert Repeat(1, 0) + [0] + BitsOf(3, two) == [0, 1, 1];
    CodeRead(m, p + 3, 0, 3, 16, two, s.kmodifier);
  }

  lemma FirstTurn(m: Memory, p: nat, s: Params, c: Scheme, left: nat) returns (t: Turn)
    requires s == Params(16, 14, 40) && IsRice(c, s) && left == 5
    requires Carries(m, p, [1, 1, 0]) && Carries(m, p + 3, [0, 1, 1])
    ensures t == Turn([1, 0, 0], p + 6, 0, 1) && Turned(m, p, left, 10, 0, c) == t
  {
    LeastParameter(10, s, 1);
    FirstCodes(m, p, s);
    RunParameterIs(90);
    RunTurn(m, p, left, 10, 0, s, c, 1, 2, p + 3, 90, 2, 2, p + 6);
    t := Turn([1, 0, 0], p + 6, 0, 1);
    assert [1] + Zeros(2) == [1, 0, 0];
  }

  lemma SecondCodes(m: Memory, p: nat, s: Params)
    requires s == Params(16, 14, 40) && Carries(m, p, [1, 1, 0]) && Carries(m, p + 3, [0, 0, 0])
    ensures Value(m, p, s.size, 1, 32) == Read(2, p + 3) && Value(m, p + 3, 16, 3, s.kmodifier) == Read(0, p + 6)
  {
    var three := 3;
    assert Repeat(1, 2) + [0] == [1, 1, 0];
    UnaryRead(m, p, 2, s.size, 1, 32);
    assert Repeat(1, 0) + [0] + Repeat(0, three - 1) == [0, 0, 0];
    ZeroRead(m, p + 3, 0, 16, three, s.kmodifier);
  }

  lemma SecondTurn(m: Memory, p: nat, s: Params, c: Scheme, left: nat) returns (t: Turn)
    requires s == Params(16, 14, 40) && IsRice(c, s) && left == 2
    requires Carries(m, p, [1, 1, 0]) && Carries(m, p + 3, [0, 0, 0])
    ensures t == Turn([-2], p + 6, 0, 1) && Turned(m, p, left, 0, 1, c) == t
  {
    LeastParameter(0, s, 1);
    SecondCodes(m, p, s);
    RunParameterIs(120);
    RunTurn(m, p, left, 0, 1, s, c, 1, 2, p + 3, 120, 3, 0, p + 6);
    t := Turn([-2], p + 6, 0, 1);
    assert [-2] + Zeros(0) == [-2];
  }

  lemma ThirdTurn(m: Memory, p: nat, s: Params, c: Scheme, left: nat) returns (t: Turn)
    requires s == Params(16, 14, 40) && IsRice(c, s) && left == 1 && Carries(m, p, [1, 1, 1, 1, 1, 0])
    ensures t == Turn([3], p + 6, 240, 0) && Turned(m, p, left, 0, 1, c) == t
  {
    LeastParameter(0, s, 1);
    assert Repeat(1, 5) + [0] == [1, 1, 1, 1, 1, 0];
    UnaryRead(m, p, 5, s.size, 1, 32);
    ValueTurn(m, p, left, 0, 1, s, c, 1, 5, p + 6, 240);
    t := Turn([3], p + 6, 240, 0);
  }
}
