/** The counter mode of aes_ctr.c. */
module CounterMode {
  import opened Words
  import opened AesField
  import opened AesTables
  import opened Aes
  import opened BlockModes

  // ---- Counters ----------------------------------------------------------------------------------------

  /** One more, least significant byte first; the carry out of the last byte is lost. */
  function IncLittle(c: seq<bv8>): (r: seq<bv8>)
    ensures |r| == |c|
  {
    if c == [] then [] else if c[0] + 1 != 0 then [c[0] + 1] + c[1..] else [0] + IncLittle(c[1..])
  }

  /** One more, least significant byte last. */
  function IncBig(c: seq<bv8>): (r: seq<bv8>)
    ensures |r| == |c|
  {
    if c == [] then []
    else
      var n := |c| - 1;
      if c[n] + 1 != 0 then c[..n] + [c[n] + 1] else IncBig(c[..n]) + [0]
  }

  function LittleNumber(c: seq<bv8>): nat { if c == [] then 0 else c[0] as int + 0x100 * LittleNumber(c[1..]) }

  function BigNumber(c: seq<bv8>): nat { if c == [] then 0 else 0x100 * BigNumber(c[..|c| - 1]) + c[|c| - 1] as int }

  lemma NextByte(b: bv8)
    ensures b + 1 == 0 <==> b as int == 0xFF
    ensures b + 1 != 0 ==> (b + 1) as int == b as int + 1
  {}

  lemma {:induction false} LittleBound(c: seq<bv8>)
    ensures LittleNumber(c) < Pow2(8 * |c|)
  {
    if c != [] {
      LittleBound(c[1..]);
      Times256(|c|);
    }
  }

  lemma Times256(n: nat)
    requires n > 0
    ensures Pow2(8 * n) == 0x100 * Pow2(8 * (n - 1))
  {
    Pow2Byte(8 * (n - 1));
  }

  /** The byte-wise increments count modulo the size of the counter. */
  lemma {:induction false} IncLittleNumber(c: seq<bv8>)
    ensures LittleNumber(IncLittle(c)) == if LittleNumber(c) + 1 == Pow2(8 * |c|) then 0 else LittleNumber(c) + 1
  {
    if c != [] {
      NextByte(c[0]);
      Times256(|c|);
      LittleBound(c[1..]);
      if c[0] + 1 != 0 {
        assert ([c[0] + 1] + c[1..])[1..] == c[1..];
      } else {
        IncLittleNumber(c[1..]);
        assert ([0 as bv8] + IncLittle(c[1..]))[1..] == IncLittle(c[1..]);
      }
    }
  }

  lemma {:induction false} BigBound(c: seq<bv8>)
    ensures BigNumber(c) < Pow2(8 * |c|)
  {
    if c != [] {
      BigBound(c[..|c| - 1]);
      Times256(|c|);
    }
  }

  lemma {:induction false} IncBigNumber(c: seq<bv8>)
    ensures BigNumber(IncBig(c)) == if BigNumber(c) + 1 == Pow2(8 * |c|) then 0 else BigNumber(c) + 1
  {
    if c != [] {
      var n := |c| - 1;
      NextByte(c[n]);
      Times256(|c|);
      BigBound(c[..n]);
      if c[n] + 1 != 0 {
        assert (c[..n] + [c[n] + 1])[..n] == c[..n];
      } else {
        IncBigNumber(c[..n]);
        assert (IncBig(c[..n]) + [0 as bv8])[..n] == IncBig(c[..n]);
      }
    }
  }

  /** The mode bits: 0x10 selects the layout of section 4 of RFC 3686, with a 32-bit counter at the end of the
      block; 0x01 selects big-endian counting. */
  function CounterStart(mode: bv8): nat { if mode & 0x10 != 0 then 12 else 0 }

  function Increment(mode: bv8, b: Block): Block {
    var at := CounterStart(mode);
    b[..at] + if mode & 0x01 == 0 then IncLittle(b[at..]) else IncBig(b[at..])
  }

  /** The counter of a block as a number. */
  function CounterNumber(mode: bv8, b: Block): nat {
    var c := b[CounterStart(mode)..];
    if mode & 0x01 == 0 then LittleNumber(c) else BigNumber(c)
  }

  function CounterSize(mode: bv8): nat { Pow2(8 * (16 - CounterStart(mode))) }

  function Counting(mode: bv8): Block -> Block { (b: Block) => Increment(mode, b) }

  function Advance(inc: Block -> Block, b: Block, n: nat): Block { if n == 0 then b else inc(Advance(inc, b, n - 1)) }

  /** A number one higher, or 0 after the last of size numbers. */
  predicate OneMore(x: nat, y: nat, size: nat) { x < size && y == if x + 1 == size then 0 else x + 1 }

  lemma LittleCounts(c: seq<bv8>)
    ensures OneMore(LittleNumber(c), LittleNumber(IncLittle(c)), Pow2(8 * |c|))
  {
    LittleBound(c);
    IncLittleNumber(c);
  }

  lemma BigCounts(c: seq<bv8>)
    ensures OneMore(BigNumber(c), BigNumber(IncBig(c)), Pow2(8 * |c|))
  {
    BigBound(c);
    IncBigNumber(c);
  }

  lemma IncrementParts(mode: bv8, b: Block, at: nat)
    requires at == CounterStart(mode)
    ensures Increment(mode, b)[..at] == b[..at]
    ensures Increment(mode, b)[at..] == if mode & 0x01 == 0 then IncLittle(b[at..]) else IncBig(b[at..])
  {}

  /** One more, in the last four bytes and most significant first, as RFC 3686 has it. */
  lemma IncrementRfc3686(b: Block, fixed: seq<bv8>, more: seq<bv8>)
    requires b == fixed + [0, 0, 0, 0xFF] && |fixed| == 12 && more == [0, 0, 1, 0]
    ensures Increment(0x11, b) == fixed + more
  {
    Modes();
    IncrementParts(0x11, b, 12);
    assert b[..12] == fixed && b[12..] == [0, 0, 0, 0xFF];
    assert IncBig([0, 0, 0]) == [0, 0, 1];
    assert IncBig(b[12..]) == more;
  }

  /** And in all sixteen, least significant first. */
  lemma IncrementLittle(b: Block, rest: seq<bv8>)
    requires b == [0xFF, 0] + rest && |rest| == 14
    ensures Increment(0x00, b) == [0, 1] + rest
  {
    Modes();
    IncrementParts(0x00, b, 0);
    assert b[0..] == b && b[1..] == [0] + rest && ([0] + rest)[1..] == rest;
    assert IncLittle(b) == [0] + IncLittle([0] + rest) && IncLittle([0] + rest) == [1] + rest;
  }

  lemma Modes()
    ensures CounterStart(0x11) == CounterStart(0x10) == 12 && CounterStart(0x00) == CounterStart(0x01) == 0
    ensures 0x11 as bv8 & 0x01 != 0 && 0x10 as bv8 & 0x01 == 0 && 0x00 as bv8 & 0x01 == 0
  {}

  lemma IncrementCounts(mode: bv8, b: Block)
    ensures OneMore(CounterNumber(mode, b), CounterNumber(mode, Increment(mode, b)), CounterSize(mode))
    ensures Increment(mode, b)[..CounterStart(mode)] == b[..CounterStart(mode)]
  {
    var at := CounterStart(mode);
    IncrementParts(mode, b, at);
    if mode & 0x01 == 0 { LittleCounts(b[at..]); } else { BigCounts(b[at..]); }
  }

  /** n steps that each count one more count n more, modulo size. */
  lemma {:induction false} StepsCount(inc: Block -> Block, number: Block -> nat, size: nat, b: Block, n: nat)
    requires forall x {:trigger number(inc(x))} :: OneMore(number(x), number(inc(x)), size)
    ensures size > 0 && number(Advance(inc, b, n)) == (number(b) + n) % size
  {
    var first := number(inc(b));
    if n == 0 {
      SmallModulo(number(b), size);
    } else {
      StepsCount(inc, number, size, b, n - 1);
      var last := number(inc(Advance(inc, b, n - 1)));
      NextModulo(number(b) + n - 1, size);
    }
  }

  lemma {:induction false} AdvanceKeeps(mode: bv8, b: Block, n: nat, at: nat)
    requires at == CounterStart(mode)
    ensures Advance(Counting(mode), b, n)[..at] == b[..at]
  {
    if n > 0 {
      AdvanceKeeps(mode, b, n - 1, at);
      IncrementParts(mode, Advance(Counting(mode), b, n - 1), at);
    }
  }

  /** After n increments the counter has moved on by n modulo 2^128 or 2^32, and the rest of the block is the same. */
  lemma AdvanceCounts(mode: bv8, b: Block, n: nat)
    ensures CounterNumber(mode, Advance(Counting(mode), b, n)) == (CounterNumber(mode, b) + n) % CounterSize(mode)
    ensures Advance(Counting(mode), b, n)[..CounterStart(mode)] == b[..CounterStart(mode)]
  {
    var inc, number := Counting(mode), (x: Block) => CounterNumber(mode, x);
    forall x {:trigger number(inc(x))} ensures OneMore(number(x), number(inc(x)), CounterSize(mode)) {
      IncrementCounts(mode, x);
    }
    StepsCount(inc, number, CounterSize(mode), b, n);
    AdvanceKeeps(mode, b, n, CounterStart(mode));
  }

  lemma NextModulo(x: nat, m: nat)
    requires m > 0
    ensures (x + 1) % m == if x % m + 1 == m then 0 else x % m + 1
  {
    if x % m + 1 == m {
      assert x + 1 == m * (x / m + 1) + 0 by { assert x == m * (x / m) + x % m; }
      DivUnique(x + 1, m, x / m + 1, 0);
    } else {
      DivUnique(x + 1, m, x / m, x % m + 1);
    }
  }

  lemma SmallModulo(x: nat, m: nat)
    requires x < m
    ensures x % m == x
  {}

  // ---- Keystream -----------------------------------------------------------------------------------------

  /** n bytes of keystream from the counter block b on: the encryptions of successive counter blocks. */
  function Keystream(e: Block -> Block, inc: Block -> Block, b: Block, n: nat): (k: seq<bv8>)
    ensures |k| == n
    decreases n
  {
    if n == 0 then []
    else if n <= 16 then e(b)[..n]
    else e(b) + Keystream(e, inc, inc(b), n - 16)
  }

  /** Byte i is masked with the encryption of counter block b + i / 16. */
  lemma {:induction false} KeystreamAt(e: Block -> Block, inc: Block -> Block, b: Block, n: nat, i: nat)
    requires i < n
    ensures Keystream(e, inc, b, n)[i] == e(Advance(inc, b, i / 16))[i % 16]
    decreases n
  {
    if i >= 16 {
      KeystreamAt(e, inc, inc(b), n - 16, i - 16);
      assert (i - 16) / 16 == i / 16 - 1 && (i - 16) % 16 == i % 16;
      AdvanceFirst(inc, b, i / 16 - 1);
    }
  }

  lemma {:induction false} AdvanceFirst(inc: Block -> Block, b: Block, n: nat)
    ensures Advance(inc, inc(b), n) == Advance(inc, b, n + 1)
  {
    if n > 0 { AdvanceFirst(inc, b, n - 1); }
  }

  /** How many blocks n bytes use up. */
  function Blocks(n: nat): nat { (n + 15) / 16 }

  function CtrApply(e: Block -> Block, inc: Block -> Block, b: Block, p: seq<bv8>): seq<bv8> {
    XorBytewise(p, Keystream(e, inc, b, |p|))
  }

  /** Decryption is encryption again. */
  lemma CtrTwice(e: Block -> Block, inc: Block -> Block, b: Block, p: seq<bv8>)
    ensures CtrApply(e, inc, b, CtrApply(e, inc, b, p)) == p
  {
    XorTwice(p, Keystream(e, inc, b, |p|));
  }

  lemma {:induction false} KeystreamSplits(e: Block -> Block, inc: Block -> Block, b: Block, m: nat, n: nat)
    requires m % 16 == 0
    ensures Keystream(e, inc, b, m + n) == Keystream(e, inc, b, m) + Keystream(e, inc, Advance(inc, b, m / 16), n)
    decreases m
  {
    if m > 0 {
      KeystreamSplits(e, inc, inc(b), m - 16, n);
      AdvanceFirst(inc, b, m / 16 - 1);
      assert (m - 16) / 16 == m / 16 - 1;
      if m == 16 {
        assert e(b)[..16] == e(b);
      }
    }
  }

  /** Splitting the data at a multiple of 16 changes nothing, neither the output nor the counter. */
  lemma CtrSplits(e: Block -> Block, inc: Block -> Block, b: Block, p: seq<bv8>, q: seq<bv8>)
    requires |p| % 16 == 0
    ensures CtrApply(e, inc, b, p + q) == CtrApply(e, inc, b, p) + CtrApply(e, inc, Advance(inc, b, Blocks(|p|)), q)
    ensures Blocks(|p + q|) == Blocks(|p|) + Blocks(|q|)
  {
    assert Blocks(|p|) == |p| / 16;
    KeystreamSplits(e, inc, b, |p|, |q|);
  }

  // ---- The context ---------------------------------------------------------------------------------------

  function Zeros(n: nat): (z: seq<bv8>)
    ensures |z| == n
  {
    seq(n, _ => 0)
  }

  lemma LittleCarry(c: seq<bv8>, i: nat)
    requires i < |c| && c[i] + 1 == 0
    ensures IncLittle(c[i..]) == [0] + IncLittle(c[i + 1..])
  {
    assert c[i..][1..] == c[i + 1..];
  }

  /** The counter bytes before i have wrapped to zero. */
  ghost predicate Carried(b: seq<bv8>, now: seq<bv8>, at: nat, i: nat) {
    && at <= i <= |b| && now == b[..at] + Zeros(i - at) + b[i..]
    && IncLittle(b[at..]) == Zeros(i - at) + IncLittle(b[i..])
  }

  lemma CarriedByte(b: seq<bv8>, now: seq<bv8>, at: nat, i: nat)
    requires Carried(b, now, at, i) && i < |b|
    ensures |now| == |b| && now[i] == b[i]
  {}

  lemma CarryGoesOn(b: seq<bv8>, was: seq<bv8>, now: seq<bv8>, at: nat, i: nat)
    requires Carried(b, was, at, i) && i < |b| && b[i] + 1 == 0 && now == was[i := 0]
    ensures Carried(b, now, at, i + 1)
  {
    LittleCarry(b, i);
    assert Zeros(i + 1 - at) == Zeros(i - at) + [0];
  }

  lemma CarryStops(b: seq<bv8>, was: seq<bv8>, now: seq<bv8>, at: nat, i: nat)
    requires Carried(b, was, at, i) && i < |b| && b[i] + 1 != 0 && now == was[i := b[i] + 1]
    ensures now == b[..at] + IncLittle(b[at..])
  {
    LittleStop(b, i);
  }

  lemma LittleStop(c: seq<bv8>, i: nat)
    requires i < |c| && c[i] + 1 != 0
    ensures IncLittle(c[i..]) == [c[i] + 1] + c[i + 1..]
  {
    assert c[i..][1..] == c[i + 1..];
  }

  /** The counter bytes from i on have wrapped to zero. */
  ghost predicate Borrowed(b: seq<bv8>, now: seq<bv8>, at: nat, i: nat) {
    && at <= i <= |b| && now == b[..i] + Zeros(|b| - i)
    && IncBig(b[at..]) == IncBig(b[at..i]) + Zeros(|b| - i)
  }

  lemma BorrowStarts(b: seq<bv8>, at: nat)
    requires at <= |b|
    ensures Borrowed(b, b, at, |b|)
  {
    assert b[at..|b|] == b[at..];
  }

  lemma BorrowedByte(b: seq<bv8>, now: seq<bv8>, at: nat, i: nat)
    requires Borrowed(b, now, at, i) && at < i
    ensures |now| == |b| && now[i - 1] == b[i - 1]
  {}

  lemma BigCarry(c: seq<bv8>, at: nat, i: nat)
    requires at <= i < |c| && c[i] + 1 == 0
    ensures IncBig(c[at..i + 1]) == IncBig(c[at..i]) + [0]
  {
    assert c[at..i + 1][..i - at] == c[at..i];
  }

  lemma BigStop(c: seq<bv8>, at: nat, i: nat)
    requires at <= i < |c| && c[i] + 1 != 0
    ensures IncBig(c[at..i + 1]) == c[at..i] + [c[i] + 1]
  {
    assert c[at..i + 1][..i - at] == c[at..i];
  }

  lemma BorrowGoesOn(b: seq<bv8>, was: seq<bv8>, now: seq<bv8>, at: nat, i: nat)
    requires Borrowed(b, was, at, i + 1) && at <= i && b[i] + 1 == 0 && now == was[i := 0]
    ensures Borrowed(b, now, at, i)
  {
    BigCarry(b, at, i);
    assert Zeros(|b| - i) == [0] + Zeros(|b| - (i + 1));
  }

  lemma BorrowStops(b: seq<bv8>, was: seq<bv8>, now: seq<bv8>, at: nat, i: nat)
    requires Borrowed(b, was, at, i + 1) && at <= i && b[i] + 1 != 0 && now == was[i := b[i] + 1]
    ensures now == b[..at] + IncBig(b[at..])
  {
    BigStop(b, at, i);
  }

  class AesCtr {
    const aes: AesContext
    const blk: array<bv8>
    var mode: bv8

    constructor (f: Field)
      ensures fresh(blk) && fresh(aes) && fresh(aes.erk) && fresh(aes.drk) && blk.Length == 16 && aes.Shape()
    {
      aes := new AesContext(f);
      blk := new bv8[16];
      mode := 0;
    }

    ghost predicate Valid()
      reads this, blk, aes, aes.erk, aes.drk
    {
      blk.Length == 16 && aes.Valid()
    }

    /** aes_ctr_init: a 128-bit key and, unless it is null, the first counter block. */
    method Init(t: Tables, ghost f: Field, bytes: array<bv8>, iblk: array?<bv8>, m: bv8)
      requires blk.Length == 16 && aes.Shape() && Generated(t, f) && f.Valid()
      requires bytes.Length >= 16 && (iblk != null ==> iblk.Length >= 16 && iblk != blk)
      modifies this, blk, aes, aes.erk, aes.drk
      ensures Valid() && mode == m && aes.field == f && aes.key == KeyCols(old(bytes[..]), 4)
      ensures blk[..] == if iblk == null then old(blk[..]) else old(iblk[..16])
    {
      var r := aes.SetKey(t, f, bytes, 128);
      mode := m;
      if iblk == null {
        return;
      }
      CopyBlock(iblk, blk);
    }

    /** ctr_inc_ctr. */
    method IncrementCounter()
      requires blk.Length == 16
      modifies blk
      ensures blk[..] == Counting(mode)(old(blk[..]))
    {
      var at := if mode & 0x10 != 0 then 12 else 0;
      ghost var b := blk[..];
      if mode & 0x01 == 0 {
        CountUp(at);
      } else {
        CountDown(at);
      }
    }

    /** From the first counter byte, until one does not wrap to zero. */
    method CountUp(at: nat)
      requires blk.Length == 16 && at <= 16
      modifies blk
      ensures blk[..] == old(blk[..at]) + IncLittle(old(blk[at..]))
    {
      ghost var b := blk[..];
      var i := at;
      while i < 16
        invariant at <= i <= 16 && Carried(b, blk[..], at, i)
      {
        ghost var was := blk[..];
        CarriedByte(b, was, at, i);
        blk[i] := blk[i] + 1;
        if blk[i] != 0 {
          CarryStops(b, was, blk[..], at, i);
          return;
        }
        CarryGoesOn(b, was, blk[..], at, i);
        i := i + 1;
      }
    }

    /** From the last counter byte. */
    method CountDown(at: nat)
      requires blk.Length == 16 && at <= 16
      modifies blk
      ensures blk[..] == old(blk[..at]) + IncBig(old(blk[at..]))
    {
      ghost var b := blk[..];
      var i := 16;
      BorrowStarts(b, at);
      while i > at
        invariant at <= i <= 16 && Borrowed(b, blk[..], at, i)
      {
        ghost var was := blk[..];
        BorrowedByte(b, was, at, i);
        i := i - 1;
        blk[i] := blk[i] + 1;
        if blk[i] != 0 {
          BorrowStops(b, was, blk[..], at, i);
          return;
        }
        BorrowGoesOn(b, was, blk[..], at, i);
      }
    }

    method EncryptInPlace(t: Tables, ks: array<bv8>, ghost e: Block -> Block)
      requires aes.Valid() && Generated(t, aes.field) && Keyed(aes, e) && ks.Length == 16
      modifies ks
      ensures ks[..] == e(old(ks[..]))
    {
      assert ks[..] == ks[0..16];
      aes.Encrypt(t, ks, 0, ks, 0);
      assert ks[..] == ks[0..16];
      assert Unfold(0);
    }

    /** inc is the counter step of the mode. */
    ghost predicate Steps(inc: Block -> Block)
      reads this
    {
      forall u {:trigger Unfold(u)} :: u == 0 ==> inc == Counting(mode)
    }

    /** ctr_clock_keystream: the encryption of the counter block, which then moves on. */
    method ClockKeystream(t: Tables, ks: array<bv8>, ghost e: Block -> Block, ghost inc: Block -> Block)
      requires Valid() && Generated(t, aes.field) && Keyed(aes, e) && Steps(inc) && ks.Length == 16 && ks != blk
      modifies ks, blk
      ensures ks[..] == e(old(blk[..])) && blk[..] == inc(old(blk[..]))
    {
      CopyBlock(blk, ks);
      assert blk[..16] == blk[..];
      EncryptInPlace(t, ks, e);
      IncrementCounter();
      assert Unfold(0);
    }

    /** The loop body of aes_ctr_encrypt: a new keystream block when the last is used up, and one byte masked. */
    method EncryptByte(t: Tables, key: array<bv8>, data: array<bv8>, i: nat, j0: nat,
                       ghost e: Block -> Block, ghost inc: Block -> Block, ghost b: Block, ghost p: seq<bv8>)
      returns (j: nat)
      requires Valid() && Generated(t, aes.field) && Keyed(aes, e) && Steps(inc) && i < data.Length == |p|
      requires key.Length == 16 && key != data && key != blk && data != blk
      requires Progress(e, inc, b, blk[..], key[..], i, j0) && Masked(e, inc, b, p, data[..], i)
      modifies key, data, blk
      ensures Progress(e, inc, b, blk[..], key[..], i + 1, j) && Masked(e, inc, b, p, data[..], i + 1)
    {
      j := ClockWhenUsedUp(t, key, i, j0, e, inc, b);
      MiddleByte(e, inc, b, blk[..], key[..], i, j);
      ghost var q := data[..];
      MaskedAt(e, inc, b, p, q, i);
      data[i] := Add(data[i], key[j]);
      OneMasked(e, inc, b, p, q, data[..], i);
      j := j + 1;
      Progressed(e, inc, b, blk[..], key[..], i, j);
    }

    method ClockWhenUsedUp(t: Tables, key: array<bv8>, ghost i: nat, j0: nat,
                           ghost e: Block -> Block, ghost inc: Block -> Block, ghost b: Block)
      returns (j: nat)
      requires Valid() && Generated(t, aes.field) && Keyed(aes, e) && Steps(inc) && key.Length == 16 && key != blk
      requires Progress(e, inc, b, blk[..], key[..], i, j0)
      modifies key, blk
      ensures Middle(e, inc, b, blk[..], key[..], i, j)
    {
      j := j0;
      ghost var was, before := blk[..], key[..];
      if j == 16 {
        j := 0;
        ClockKeystream(t, key, e, inc);
        Clocked(e, inc, b, was, before, blk[..], key[..], i);
      } else {
        NotClocked(e, inc, b, was, key[..], i, j);
      }
    }

    /** aes_ctr_encrypt; every call starts with a fresh keystream block. */
    method Encrypt(t: Tables, data: array<bv8>, size: nat, ghost e: Block -> Block, ghost inc: Block -> Block)
      requires Valid() && Generated(t, aes.field) && Keyed(aes, e) && Steps(inc) && size <= data.Length && data != blk
      modifies data, blk
      ensures blk[..] == Advance(inc, old(blk[..]), Blocks(size))
      ensures data[..size] == CtrApply(e, inc, old(blk[..]), old(data[..size]))
      ensures data[size..] == old(data[size..])
    {
      var key := new bv8[16];
      var j, i := 16, 0;
      ghost var b, p := blk[..], data[..];
      Started(e, inc, b, key[..], p);
      while i < size
        invariant i <= size && Progress(e, inc, b, blk[..], key[..], i, j) && Masked(e, inc, b, p, data[..], i)
      {
        j := EncryptByte(t, key, data, i, j, e, inc, b, p);
        i := i + 1;
      }
      Finished(e, inc, b, p, blk[..], key[..], data[..], size, j);
      assert data[..size] == data[..][..size] && data[size..] == data[..][size..] && p[..size] == old(data[..size]);
    }
  }

  /** The counter block c, keystream block k and position j before byte i. */
  ghost predicate Progress(e: Block -> Block, inc: Block -> Block, b: Block, c: seq<bv8>, k: seq<bv8>, i: nat, j: nat) {
    forall u {:trigger Unfold(u)} :: u == 0 ==>
      && c == Advance(inc, b, Blocks(i)) && |k| == 16
      && j == (if i % 16 == 0 then 16 else i % 16)
      && (i % 16 != 0 ==> k == e(Advance(inc, b, i / 16)))
  }

  /** Byte i is about to be masked with byte j of k. */
  ghost predicate Middle(e: Block -> Block, inc: Block -> Block, b: Block, c: seq<bv8>, k: seq<bv8>, i: nat, j: nat) {
    forall u {:trigger Unfold(u)} :: u == 0 ==>
      c == Advance(inc, b, Blocks(i + 1)) && k == e(Advance(inc, b, i / 16)) && j == i % 16
  }

  /** The first i bytes of p have been masked. */
  ghost predicate Masked(e: Block -> Block, inc: Block -> Block, b: Block, p: seq<bv8>, q: seq<bv8>, i: nat) {
    forall u {:trigger Unfold(u)} :: u == 0 ==>
      && |q| == |p| && i <= |p| && q[i..] == p[i..]
      && forall k :: 0 <= k < i ==> q[k] == Add(p[k], Mask(e, inc, b, k))
  }

  lemma Started(e: Block -> Block, inc: Block -> Block, b: Block, k: seq<bv8>, p: seq<bv8>)
    requires |k| == 16
    ensures Progress(e, inc, b, b, k, 0, 16) && Masked(e, inc, b, p, p, 0)
  {
    assert Blocks(0) == 0 && Advance(inc, b, 0) == b;
  }

  lemma BlockOf(i: nat)
    ensures Blocks(i + 1) == i / 16 + 1
    ensures Blocks(i) == if i % 16 == 0 then i / 16 else i / 16 + 1
    ensures (i + 1) / 16 == if (i + 1) % 16 == 0 then i / 16 + 1 else i / 16
    ensures (i + 1) % 16 == if i % 16 == 15 then 0 else i % 16 + 1
  {}

  lemma Clocked(e: Block -> Block, inc: Block -> Block, b: Block, was: Block, before: seq<bv8>, c: Block, k: seq<bv8>,
        i: nat)
    requires Progress(e, inc, b, was, before, i, 16) && c == inc(was) && k == e(was)
    ensures Middle(e, inc, b, c, k, i, 0)
  {
    assert Unfold(0);
    BlockOf(i);
    assert i % 16 == 0 && c == Advance(inc, b, Blocks(i + 1)) && k == e(Advance(inc, b, i / 16));
  }

  lemma NotClocked(e: Block -> Block, inc: Block -> Block, b: Block, c: seq<bv8>, k: seq<bv8>, i: nat, j: nat)
    requires Progress(e, inc, b, c, k, i, j) && j != 16
    ensures Middle(e, inc, b, c, k, i, j)
  {
    assert Unfold(0);
    BlockOf(i);
    assert Blocks(i + 1) == Blocks(i) && j == i % 16;
  }

  lemma MiddleByte(e: Block -> Block, inc: Block -> Block, b: Block, c: seq<bv8>, k: seq<bv8>, i: nat, j: nat)
    requires Middle(e, inc, b, c, k, i, j)
    ensures j < 16 == |k| && k[j] == Mask(e, inc, b, i)
  {
    assert Unfold(0);
  }

  lemma Progressed(e: Block -> Block, inc: Block -> Block, b: Block, c: seq<bv8>, k: seq<bv8>, i: nat, j: nat)
    requires j > 0 && Middle(e, inc, b, c, k, i, j - 1)
    ensures Progress(e, inc, b, c, k, i + 1, j)
  {
    assert Unfold(0);
    BlockOf(i);
    assert c == Advance(inc, b, Blocks(i + 1)) && j == if (i + 1) % 16 == 0 then 16 else (i + 1) % 16;
    assert (i + 1) % 16 != 0 ==> k == e(Advance(inc, b, (i + 1) / 16));
  }

  lemma MaskedAt(e: Block -> Block, inc: Block -> Block, b: Block, p: seq<bv8>, q: seq<bv8>, i: nat)
    requires Masked(e, inc, b, p, q, i) && i < |p|
    ensures |q| == |p| && q[i] == p[i]
  {
    assert Unfold(0);
    assert q[i] == q[i..][0] && p[i] == p[i..][0];
  }

  lemma OneMasked(e: Block -> Block, inc: Block -> Block, b: Block, p: seq<bv8>, q: seq<bv8>, q': seq<bv8>, i: nat)
    requires Masked(e, inc, b, p, q, i) && i < |p| && |q| == |p| && q' == q[i := Add(q[i], Mask(e, inc, b, i))]
    ensures Masked(e, inc, b, p, q', i + 1)
  {
    MaskedAt(e, inc, b, p, q, i);
    assert Unfold(0);
    assert q'[i + 1..] == q[i..][1..] == p[i..][1..] == p[i + 1..];
    assert forall k :: 0 <= k < i + 1 ==> q'[k] == Add(p[k], Mask(e, inc, b, k));
  }

  lemma AllMasked(e: Block -> Block, inc: Block -> Block, b: Block, p: seq<bv8>, q: seq<bv8>, n: nat)
    requires Masked(e, inc, b, p, q, n)
    ensures |q| == |p| && n <= |p| && q[..n] == CtrApply(e, inc, b, p[..n]) && q[n..] == p[n..]
  {
    assert Unfold(0);
    forall k | 0 <= k < n ensures q[..n][k] == CtrApply(e, inc, b, p[..n])[k] { KeystreamAt(e, inc, b, n, k); }
  }

  lemma Finished(e: Block -> Block, inc: Block -> Block, b: Block, p: seq<bv8>, c: seq<bv8>, k: seq<bv8>, q: seq<bv8>,
                 n: nat, j: nat)
    requires Progress(e, inc, b, c, k, n, j) && Masked(e, inc, b, p, q, n)
    ensures c == Advance(inc, b, Blocks(n))
    ensures |q| == |p| && n <= |p| && q[..n] == CtrApply(e, inc, b, p[..n]) && q[n..] == p[n..]
  {
    AllMasked(e, inc, b, p, q, n);
    assert Unfold(0);
  }

  method CopyBlock(a: array<bv8>, b: array<bv8>)
    requires a.Length >= 16 && b.Length == 16 && a != b
    modifies b
    ensures b[..] == a[..16]
  {
    for i := 0 to 16
      invariant b[..i] == a[..i]
    {
      b[i] := a[i];
    }
  }

  /** The keystream byte that masks byte k. */
  function Mask(e: Block -> Block, inc: Block -> Block, b: Block, k: nat): bv8 { e(Advance(inc, b, k / 16))[k % 16] }
}
