/** The AES context: key set-up and the table-driven encryption and decryption of one block. */
module Aes {
  import opened AesField
  import opened AesCipher
  import opened AesTables
  import opened Words

  // ---- Blocks and keys as bytes --------------------------------------------------------------------

  function ColAt(b: seq<bv8>, i: nat): Col
    requires i + 4 <= |b|
  {
    Col(b[i], b[i + 1], b[i + 2], b[i + 3])
  }

  function Load(b: seq<bv8>): State
    requires |b| >= 16
  {
    State(ColAt(b, 0), ColAt(b, 4), ColAt(b, 8), ColAt(b, 12))
  }

  function Store(s: State): (b: seq<bv8>)
    ensures |b| == 16
  {
    ColBytes(s.c0) + ColBytes(s.c1) + ColBytes(s.c2) + ColBytes(s.c3)
  }

  function ColBytes(c: Col): seq<bv8> { [c.b0, c.b1, c.b2, c.b3] }

  lemma LoadStore(s: State, b: seq<bv8>)
    ensures Load(Store(s)) == s
    ensures |b| == 16 ==> Store(Load(b)) == b
  {}

  /** The cipher key as words. */
  function KeyCols(b: seq<bv8>, nk: nat): (key: seq<Col>)
    requires 4 * nk <= |b|
    ensures |key| == nk && forall i :: 0 <= i < nk ==> key[i] == ColAt(b, 4 * i)
  {
    seq(nk, i requires 0 <= i < nk => ColAt(b, 4 * i))
  }

  /** The cipher under the expansion of a key of |key| words, which takes |key| + 6 rounds. */
  function EncryptState(f: Field, key: seq<Col>, s: State): State
    requires |key| >= 4
  {
    Cipher(f, RoundKeys(f, key, |key| + 6), s)
  }

  function DecryptState(f: Field, key: seq<Col>, s: State): State
    requires |key| >= 4
  {
    EqInvCipher(f, DecryptionKeys(f, RoundKeys(f, key, |key| + 6)), s)
  }

  function EncryptBlock(f: Field, key: seq<Col>, block: seq<bv8>): (c: seq<bv8>)
    requires |key| >= 4 && |block| == 16
    ensures |c| == 16
  {
    Store(EncryptState(f, key, Load(block)))
  }

  function DecryptBlock(f: Field, key: seq<Col>, block: seq<bv8>): (p: seq<bv8>)
    requires |key| >= 4 && |block| == 16
    ensures |p| == 16
  {
    Store(DecryptState(f, key, Load(block)))
  }

  /** For every key and every block, decryption undoes encryption. */
  lemma DecryptEncryptBlock(f: Field, key: seq<Col>, block: seq<bv8>)
    requires f.Valid() && |key| >= 4 && |block| == 16
    ensures DecryptBlock(f, key, EncryptBlock(f, key, block)) == block
  {
    var k := RoundKeys(f, key, |key| + 6);
    LoadStore(Cipher(f, k, Load(block)), block);
    DecryptionUndoesEncryption(f, k, Load(block));
  }

  /** The four words X0 to X3, or Y0 to Y3, or of a round key. */
  datatype Quad = Quad(w0: bv32, w1: bv32, w2: bv32, w3: bv32)

  function QuadOf(s: State): Quad { Quad(Word(s.c0), Word(s.c1), Word(s.c2), Word(s.c3)) }

  /** The words q hold the state s. */
  ghost predicate Shows(q: Quad, s: State) { forall u {:trigger Unfold(u)} :: u == 0 ==> q == QuadOf(s) }

  predicate KeyAt(words: seq<bv32>, key: State, r: nat)
    requires 4 * r + 4 <= |words|
  {
    Quad(words[4 * r], words[4 * r + 1], words[4 * r + 2], words[4 * r + 3]) == QuadOf(key)
  }

  ghost predicate Schedule(words: seq<bv32>, k: seq<State>) {
    4 * |k| <= |words| && forall r {:trigger KeyAt(words, k[r], r)} :: 0 <= r < |k| ==> KeyAt(words, k[r], r)
  }

  ghost predicate WordAt(f: Field, key: seq<Col>, words: seq<bv32>, i: nat)
    requires |key| >= 4 && i < |words|
  {
    words[i] == Word(KeyWord(f, key, i))
  }

  ghost predicate Expanded(f: Field, key: seq<Col>, words: seq<bv32>, n: nat) {
    |key| >= 4 && n <= |words| && forall i {:trigger WordAt(f, key, words, i)} :: 0 <= i < n ==>
          WordAt(f, key, words, i)
  }

  /** Round key r of the decryption schedule dk against the encryption schedule k. */
  predicate Paired(f: Field, k: seq<State>, dk: seq<State>, r: nat)
    requires r < |k| == |dk|
  {
    dk[r] == if r == 0 || r == |k| - 1 then k[|k| - 1 - r] else InvMixColumns(f, k[|k| - 1 - r])
  }

  lemma AllPaired(f: Field, k: seq<State>)
    ensures |DecryptionKeys(f, k)| == |k|
    ensures forall r {:trigger Paired(f, k, DecryptionKeys(f, k), r)} ::
              0 <= r < |k| ==> Paired(f, k, DecryptionKeys(f, k), r)
  {}

  /** The first word of group i + 1, from the words that stand in w. */
  lemma CoreStep(t: Tables, f: Field, key: seq<Col>, w: seq<bv32>, nk: nat, i: nat, rk: nat)
    requires Generated(t, f) && 4 <= |key| == nk && i < 10 && rk == nk * i && nk + rk <= |w|
    requires WordAt(f, key, w, rk) && WordAt(f, key, w, nk + rk - 1)
    ensures CoreWord(t, w[rk], t.RCON[i], w[nk + rk - 1]) == Word(KeyWord(f, key, nk + rk))
  {
    assert Constant(t, f, i);
    KeyStep(f, key, i, 0, rk);
    CoreWordIs(t, f, KeyWord(f, key, rk), Rcon(f, i + 1), KeyWord(f, key, nk + rk - 1));
  }

  class AesContext {
    const erk: array<bv32>
    const drk: array<bv32>
    var nr: nat
    /** The tables' field and the key that the schedules were made from. */
    ghost var field: Field
    ghost var key: seq<Col>

    constructor (f: Field)
      ensures fresh(erk) && fresh(drk) && Shape()
    {
      erk, drk := new bv32[64], new bv32[64];
      nr, field, key := 0, f, [];
    }

    ghost predicate Shape()
      reads this
    {
      erk.Length == 64 && drk.Length == 64 && erk != drk
    }

    ghost predicate Valid()
      reads this, erk, drk
    {
      && Shape() && (|key| == 4 || |key| == 6 || |key| == 8) && nr == |key| + 6
      && Schedule(erk[..], Keys()) && Schedule(drk[..], DecryptionKeys(field, Keys()))
    }

    ghost function Keys(): seq<State>
      requires |key| >= 4
      reads this
    {
      RoundKeys(field, key, |key| + 6)
    }

    ghost predicate Filled(n: nat)
      reads this, erk
    {
      Expanded(field, key, erk[..], n)
    }

    // ---- Key expansion ----------------------------------------------------------------------------

    method PutWord(n: nat, w: bv32)
      requires Shape() && n < 64 && Filled(n) && w == Word(KeyWord(field, key, n))
      modifies erk
      ensures Filled(n + 1)
    {
      ghost var was := erk[..];
      erk[n] := w;
      forall i | 0 <= i < n + 1 ensures WordAt(field, key, erk[..], i) {
        if i < n { assert WordAt(field, key, was, i); }
      }
    }

    /** The first word of group i + 1, with the rotation, the S-box and the round constant. */
    method Core(t: Tables, nk: nat, i: nat)
      requires Shape() && Generated(t, field) && |key| == nk && i < 10 && nk * i + nk < 64
      requires Filled(nk + nk * i)
      modifies erk
      ensures Filled(nk + nk * i + 1)
    {
      var rk := nk * i;
      assert WordAt(field, key, erk[..], rk) && WordAt(field, key, erk[..], nk + rk - 1);
      CoreStep(t, field, key, erk[..], nk, i, rk);
      PutWord(nk + rk, CoreWord(t, erk[rk], t.RCON[i], erk[nk + rk - 1]));
    }

    /** Word j of group i + 1, the sum of the word before and the one a group back. */
    method Chain(nk: nat, i: nat, j: nat)
      requires Shape() && |key| == nk && 0 < j < nk && !(nk > 6 && j == 4) && nk + nk * i + j < 64
      requires Filled(nk + nk * i + j)
      modifies erk
      ensures Filled(nk + nk * i + j + 1)
    {
      var at := nk * i + j;
      assert WordAt(field, key, erk[..], at) && WordAt(field, key, erk[..], nk + at - 1);
      KeyStep(field, key, i, j, at);
      WordOfXor(KeyWord(field, key, at), KeyWord(field, key, nk + at - 1));
      PutWord(nk + at, XorWord(erk[at], erk[nk + at - 1]));
    }

    method Middle(t: Tables, i: nat)
      requires Shape() && Generated(t, field) && |key| == 8 && 8 * i + 12 < 64
      requires Filled(8 * i + 12)
      modifies erk
      ensures Filled(8 * i + 13)
    {
      var at := 8 * i + 4;
      assert WordAt(field, key, erk[..], at) && WordAt(field, key, erk[..], at + 7);
      KeyStep(field, key, i, 4, at);
      MiddleWordIs(t, field, KeyWord(field, key, at), KeyWord(field, key, at + 7));
      PutWord(at + 8, MiddleWord(t, erk[at], erk[at + 7]));
    }

    /** The encryption key schedule, by key size. */
    method Expand(t: Tables, nbits: int)
      requires Shape() && Generated(t, field) && nbits == 32 * |key|
      requires nbits == 128 || nbits == 192 || nbits == 256
      requires Filled(|key|)
      modifies erk
      ensures Filled(4 * |key| + 28)
    {
      if nbits == 128 {
        for i := 0 to 10
          invariant Filled(4 + 4 * i)
        {
          Core(t, 4, i);
          Chain(4, i, 1);
          Chain(4, i, 2);
          Chain(4, i, 3);
        }
      } else if nbits == 192 {
        for i := 0 to 8
          invariant Filled(6 + 6 * i)
        {
          Core(t, 6, i);
          Chain(6, i, 1);
          Chain(6, i, 2);
          Chain(6, i, 3);
          Chain(6, i, 4);
          Chain(6, i, 5);
        }
        Shorter(52, 54);
      } else {
        for i := 0 to 7
          invariant Filled(8 + 8 * i)
        {
          Core(t, 8, i);
          Chain(8, i, 1);
          Chain(8, i, 2);
          Chain(8, i, 3);
          Middle(t, i);
          Chain(8, i, 5);
          Chain(8, i, 6);
          Chain(8, i, 7);
        }
        Shorter(60, 64);
      }
    }

    lemma Shorter(m: nat, n: nat)
      requires m <= n && Filled(n)
      ensures Filled(m)
    {}

    // ---- The decryption schedule ------------------------------------------------------------------

    /** The first r round keys of the decryption schedule are in place. */
    ghost predicate Inverted(dk: seq<State>, r: nat)
      reads this, drk
    {
      && drk.Length == 64 && r <= |dk| <= 15
      && forall q {:trigger KeyAt(drk[..], dk[q], q)} :: 0 <= q < r ==> KeyAt(drk[..], dk[q], q)
    }

    lemma FilledKey(r: nat)
      requires Shape() && 4 <= |key| <= 8 && r <= |key| + 6 && Filled(4 * |key| + 28)
      ensures KeyAt(erk[..], RoundKey(field, key, r), r)
    {
      var w := erk[..];
      assert WordAt(field, key, w, 4 * r) && WordAt(field, key, w, 4 * r + 1);
      assert WordAt(field, key, w, 4 * r + 2) && WordAt(field, key, w, 4 * r + 3);
    }

    method PutKey(sk: nat, ghost dk: seq<State>, ghost r: nat, q: Quad)
      requires Shape() && r < |dk| <= 15 && sk == 4 * r && Inverted(dk, r) && q == QuadOf(dk[r])
      modifies drk
      ensures Inverted(dk, r + 1)
    {
      ghost var was := drk[..];
      drk[sk], drk[sk + 1], drk[sk + 2], drk[sk + 3] := q.w0, q.w1, q.w2, q.w3;
      forall i | 0 <= i < r + 1 ensures KeyAt(drk[..], dk[i], i) {
        if i < r { assert KeyAt(was, dk[i], i); }
      }
    }

    method CopyKey(rk: nat, sk: nat, ghost k: seq<State>, ghost dk: seq<State>, ghost r: nat)
      requires Shape() && r < |dk| == |k| <= 15 && sk == 4 * r && rk == 4 * (|k| - 1 - r)
      requires Inverted(dk, r) && KeyAt(erk[..], k[|k| - 1 - r], |k| - 1 - r)
      requires Paired(field, k, dk, r) && (r == 0 || r == |k| - 1)
      modifies drk
      ensures Inverted(dk, r + 1)
    {
      PutKey(sk, dk, r, Quad(erk[rk], erk[rk + 1], erk[rk + 2], erk[rk + 3]));
    }

    method MixKey(t: Tables, rk: nat, sk: nat, ghost k: seq<State>, ghost dk: seq<State>, ghost r: nat)
      requires Shape() && Generated(t, field) && field.Valid()
      requires 0 < r < |dk| - 1 && |dk| == |k| <= 15 && sk == 4 * r && rk == 4 * (|k| - 1 - r)
      requires Inverted(dk, r) && KeyAt(erk[..], k[|k| - 1 - r], |k| - 1 - r) && Paired(field, k, dk, r)
      modifies drk
      ensures Inverted(dk, r + 1)
    {
      var q := Quad(erk[rk], erk[rk + 1], erk[rk + 2], erk[rk + 3]);
      MixIs(t, field, k[|k| - 1 - r], q);
      PutKey(sk, dk, r, MixQuad(t, q));
    }

    /** Reverses the round keys, the middle ones through the KT tables. */
    method InvertKeys(t: Tables, ghost k: seq<State>, ghost dk: seq<State>)
      requires Shape() && Generated(t, field) && field.Valid() && nr + 1 == |k| == |dk| <= 15
      requires nr >= 1 && Schedule(erk[..], k)
      requires forall r {:trigger Paired(field, k, dk, r)} :: 0 <= r <= nr ==> Paired(field, k, dk, r)
      modifies drk
      ensures Inverted(dk, nr + 1)
    {
      var rk, sk := 4 * nr, 0;
      assert Paired(field, k, dk, 0) && KeyAt(erk[..], k[nr], nr);
      CopyKey(rk, sk, k, dk, 0);
      rk, sk := rk + 4, sk + 4;
      for i := 1 to nr
        invariant rk == 4 * (nr - i) + 8 && sk == 4 * i
        invariant Inverted(dk, i)
      {
        rk := rk - 8;
        assert Paired(field, k, dk, i) && KeyAt(erk[..], k[nr - i], nr - i);
        MixKey(t, rk, sk, k, dk, i);
        rk, sk := rk + 4, sk + 4;
      }
      rk := rk - 8;
      assert Paired(field, k, dk, nr) && KeyAt(erk[..], k[0], 0);
      CopyKey(rk, sk, k, dk, nr);
    }

    /** aes_set_key: 1, and nothing changed, for a size that is not 128, 192 or 256 bits. */
    method SetKey(t: Tables, ghost f: Field, bytes: array<bv8>, nbits: int) returns (r: int)
      requires Shape() && Generated(t, f) && f.Valid()
      requires nbits == 128 || nbits == 192 || nbits == 256 ==> 8 * bytes.Length >= nbits
      modifies this, erk, drk
      ensures r == (if nbits == 128 || nbits == 192 || nbits == 256 then 0 else 1)
      ensures r == 0 ==> Valid() && field == f && key == KeyCols(bytes[..], nbits / 32)
      ensures r != 0 ==> unchanged(this) && unchanged(erk) && unchanged(drk)
    {
      if nbits == 128 {
        nr := 10;
      } else if nbits == 192 {
        nr := 12;
      } else if nbits == 256 {
        nr := 14;
      } else {
        return 1;
      }
      var nk := nbits / 32;
      field, key := f, KeyCols(bytes[..], nk);
      LoadKey(bytes, nk);
      Expand(t, nbits);
      AllPaired(field, Keys());
      AllFilled();
      InvertKeys(t, Keys(), DecryptionKeys(field, Keys()));
      Scheduled();
      return 0;
    }

    method LoadKey(bytes: array<bv8>, nk: nat)
      requires Shape() && 4 <= nk <= 8 && 4 * nk <= bytes.Length && key == KeyCols(bytes[..], nk)
      modifies erk
      ensures Filled(nk)
    {
      for i := 0 to nk
        invariant Filled(i)
      {
        PutWord(i, Word(Col(bytes[4 * i], bytes[4 * i + 1], bytes[4 * i + 2], bytes[4 * i + 3])));
      }
    }

    lemma AllFilled()
      requires Shape() && 4 <= |key| <= 8 && Filled(4 * |key| + 28)
      ensures Schedule(erk[..], Keys())
    {
      var k := Keys();
      forall r | 0 <= r < |k| ensures KeyAt(erk[..], k[r], r) { FilledKey(r); }
    }

    lemma Scheduled()
      requires Shape() && (|key| == 4 || |key| == 6 || |key| == 8) && nr == |key| + 6
      requires Schedule(erk[..], Keys()) && Inverted(DecryptionKeys(field, Keys()), nr + 1)
      ensures Valid()
    {}

    // ---- One block ----------------------------------------------------------------------------------

    /** k is the encryption schedule, step the round of the cipher. */
    ghost predicate Forward(t: Tables, step: Step, k: seq<State>)
      reads this, erk
    {
      && |k| == nr + 1
      && forall u {:trigger Unfold(u)} :: u == 0 ==>
           Schedule(erk[..], k) && Generated(t, field) && step == Encrypting(field)
    }

    /** dk is the decryption schedule, step the round of the equivalent inverse cipher. */
    ghost predicate Backward(t: Tables, step: Step, dk: seq<State>)
      reads this, drk
    {
      && |dk| == nr + 1
      && forall u {:trigger Unfold(u)} :: u == 0 ==>
           Schedule(drk[..], dk) && Generated(t, field) && step == Decrypting(field)
    }

    method ReadKey(a: array<bv32>, rk: nat, ghost k: seq<State>, ghost r: nat) returns (q: Quad)
      requires Schedule(a[..], k) && r < |k| && rk == 4 * r
      ensures q == QuadOf(k[r])
    {
      assert KeyAt(a[..], k[r], r);
      q := Quad(a[rk], a[rk + 1], a[rk + 2], a[rk + 3]);
    }

    /** One of the unrolled rounds; RK moves on by one round key before it is read. e is the state before. */
    method ForwardRound(t: Tables, rk0: nat, y: Quad, ghost step: Step, ghost k: seq<State>, ghost e: State,
          ghost r0: nat)
      returns (x: Quad, rk: nat, ghost r: nat)
      requires Forward(t, step, k) && rk0 == 4 * r0 && r0 + 1 < |k| && Shows(y, e)
      ensures r == r0 + 1 && rk == 4 * r && Shows(x, step(e, k[r]))
    {
      assert Schedule(erk[..], k) && Generated(t, field) && step == Encrypting(field) && y == QuadOf(e) by {
        assert Unfold(0);
      }
      rk, r := rk0 + 4, r0 + 1;
      var q := ReadKey(erk, rk, k, r);
      ForwardIs(t, field, e, k[r], y, q);
      x := ForwardQuad(t, y, q);
    }

    method ReverseRound(t: Tables, rk0: nat, y: Quad, ghost step: Step, ghost k: seq<State>, ghost e: State,
          ghost r0: nat)
      returns (x: Quad, rk: nat, ghost r: nat)
      requires Backward(t, step, k) && rk0 == 4 * r0 && r0 + 1 < |k| && Shows(y, e)
      ensures r == r0 + 1 && rk == 4 * r && Shows(x, step(e, k[r]))
    {
      assert Schedule(drk[..], k) && Generated(t, field) && step == Decrypting(field) && y == QuadOf(e) by {
        assert Unfold(0);
      }
      rk, r := rk0 + 4, r0 + 1;
      var q := ReadKey(drk, rk, k, r);
      ReverseIs(t, field, e, k[r], y, q);
      x := ReverseQuad(t, y, q);
    }

    /** The unrolled rounds: nine, and two or four more for the longer keys. */
    method ForwardRounds(t: Tables, x0: Quad, ghost step: Step, ghost k: seq<State>, ghost s: State)
          returns (y: Quad, rk: nat)
      requires Forward(t, step, k) && (nr == 10 || nr == 12 || nr == 14) && Shows(x0, s)
      ensures rk == 4 * nr - 4 && Shows(y, Rounds(step, k, s, nr - 1))
    {
      var x := x0;
      ghost var r := 0;
      rk := 0;
      y, rk, r := ForwardRound(t, rk, x, step, k, Rounds(step, k, s, r), r);
      x, rk, r := ForwardRound(t, rk, y, step, k, Rounds(step, k, s, r), r);
      y, rk, r := ForwardRound(t, rk, x, step, k, Rounds(step, k, s, r), r);
      x, rk, r := ForwardRound(t, rk, y, step, k, Rounds(step, k, s, r), r);
      y, rk, r := ForwardRound(t, rk, x, step, k, Rounds(step, k, s, r), r);
      x, rk, r := ForwardRound(t, rk, y, step, k, Rounds(step, k, s, r), r);
      y, rk, r := ForwardRound(t, rk, x, step, k, Rounds(step, k, s, r), r);
      x, rk, r := ForwardRound(t, rk, y, step, k, Rounds(step, k, s, r), r);
      y, rk, r := ForwardRound(t, rk, x, step, k, Rounds(step, k, s, r), r);
      if nr > 10 {
        x, rk, r := ForwardRound(t, rk, y, step, k, Rounds(step, k, s, r), r);
        y, rk, r := ForwardRound(t, rk, x, step, k, Rounds(step, k, s, r), r);
      }
      if nr > 12 {
        x, rk, r := ForwardRound(t, rk, y, step, k, Rounds(step, k, s, r), r);
        y, rk, r := ForwardRound(t, rk, x, step, k, Rounds(step, k, s, r), r);
      }
    }

    method ReverseRounds(t: Tables, x0: Quad, ghost step: Step, ghost k: seq<State>, ghost s: State)
          returns (y: Quad, rk: nat)
      requires Backward(t, step, k) && (nr == 10 || nr == 12 || nr == 14) && Shows(x0, s)
      ensures rk == 4 * nr - 4 && Shows(y, Rounds(step, k, s, nr - 1))
    {
      var x := x0;
      ghost var r := 0;
      rk := 0;
      y, rk, r := ReverseRound(t, rk, x, step, k, Rounds(step, k, s, r), r);
      x, rk, r := ReverseRound(t, rk, y, step, k, Rounds(step, k, s, r), r);
      y, rk, r := ReverseRound(t, rk, x, step, k, Rounds(step, k, s, r), r);
      x, rk, r := ReverseRound(t, rk, y, step, k, Rounds(step, k, s, r), r);
      y, rk, r := ReverseRound(t, rk, x, step, k, Rounds(step, k, s, r), r);
      x, rk, r := ReverseRound(t, rk, y, step, k, Rounds(step, k, s, r), r);
      y, rk, r := ReverseRound(t, rk, x, step, k, Rounds(step, k, s, r), r);
      x, rk, r := ReverseRound(t, rk, y, step, k, Rounds(step, k, s, r), r);
      y, rk, r := ReverseRound(t, rk, x, step, k, Rounds(step, k, s, r), r);
      if nr > 10 {
        x, rk, r := ReverseRound(t, rk, y, step, k, Rounds(step, k, s, r), r);
        y, rk, r := ReverseRound(t, rk, x, step, k, Rounds(step, k, s, r), r);
      }
      if nr > 12 {
        x, rk, r := ReverseRound(t, rk, y, step, k, Rounds(step, k, s, r), r);
        y, rk, r := ReverseRound(t, rk, x, step, k, Rounds(step, k, s, r), r);
      }
    }

    /** From the loaded words to the words to store. */
    method EncryptWords(t: Tables, x0: Quad, ghost step: Step, ghost k: seq<State>, ghost s: State) returns (x: Quad)
      requires Forward(t, step, k) && (nr == 10 || nr == 12 || nr == 14) && x0 == QuadOf(s)
      ensures x == QuadOf(AddRoundKey(SubShift(field, Rounds(step, k, AddRoundKey(s, k[0]), nr - 1)), k[nr]))
    {
      assert Schedule(erk[..], k) && Generated(t, field) by { assert Unfold(0); }
      var q := ReadKey(erk, 0, k, 0);
      AddQuads(s, k[0], x0, q);
      var y, rk := ForwardRounds(t, XorQuad(x0, q), step, k, AddRoundKey(s, k[0]));
      assert y == QuadOf(Rounds(step, k, AddRoundKey(s, k[0]), nr - 1)) by { assert Unfold(0); }
      q := ReadKey(erk, rk + 4, k, nr);
      LastForward(t, field, Rounds(step, k, AddRoundKey(s, k[0]), nr - 1), k[nr], y, q);
      x := LastQuad(t.FSb, y, q);
    }

    method DecryptWords(t: Tables, x0: Quad, ghost step: Step, ghost k: seq<State>, ghost s: State) returns (x: Quad)
      requires Backward(t, step, k) && (nr == 10 || nr == 12 || nr == 14) && x0 == QuadOf(s)
      ensures x == QuadOf(AddRoundKey(InvShiftRows(SubBytes(field.invSub,
            Rounds(step, k, AddRoundKey(s, k[0]), nr - 1))), k[nr]))
    {
      assert Schedule(drk[..], k) && Generated(t, field) by { assert Unfold(0); }
      var q := ReadKey(drk, 0, k, 0);
      AddQuads(s, k[0], x0, q);
      var y, rk := ReverseRounds(t, XorQuad(x0, q), step, k, AddRoundKey(s, k[0]));
      assert y == QuadOf(Rounds(step, k, AddRoundKey(s, k[0]), nr - 1)) by { assert Unfold(0); }
      q := ReadKey(drk, rk + 4, k, nr);
      LastReverse(t, field, Rounds(step, k, AddRoundKey(s, k[0]), nr - 1), k[nr], y, q);
      x := InvLastQuad(t.RSb, y, q);
    }

    lemma Ready(t: Tables)
      requires Valid() && Generated(t, field)
      ensures Forward(t, Encrypting(field), Keys()) && Backward(t, Decrypting(field), DecryptionKeys(field, Keys()))
    {}

    method EncryptQuad(t: Tables, x0: Quad, ghost s: State) returns (x: Quad)
      requires Valid() && Generated(t, field) && x0 == QuadOf(s)
      ensures x == QuadOf(EncryptState(field, key, s))
    {
      Ready(t);
      x := EncryptWords(t, x0, Encrypting(field), Keys(), s);
    }

    method DecryptQuad(t: Tables, x0: Quad, ghost s: State) returns (x: Quad)
      requires Valid() && Generated(t, field) && x0 == QuadOf(s)
      ensures x == QuadOf(DecryptState(field, key, s))
    {
      Ready(t);
      x := DecryptWords(t, x0, Decrypting(field), DecryptionKeys(field, Keys()), s);
    }

    /** aes_encrypt of the block at input + i into output + o; the two may be the same. */
    method Encrypt(t: Tables, input: array<bv8>, i: nat, output: array<bv8>, o: nat)
      requires Valid() && Generated(t, field) && i + 16 <= input.Length && o + 16 <= output.Length
      modifies output
      ensures output[o..o + 16] == EncryptBlock(field, key, old(input[i..i + 16]))
      ensures Outside(o, output[..], old(output[..]))
    {
      ghost var s := Load(input[i..i + 16]);
      var x := LoadQuad(input, i);
      x := EncryptQuad(t, x, s);
      StoreQuad(x, output, o, EncryptState(field, key, s));
    }

    /** aes_decrypt. */
    method Decrypt(t: Tables, input: array<bv8>, i: nat, output: array<bv8>, o: nat)
      requires Valid() && Generated(t, field) && i + 16 <= input.Length && o + 16 <= output.Length
      modifies output
      ensures output[o..o + 16] == DecryptBlock(field, key, old(input[i..i + 16]))
      ensures Outside(o, output[..], old(output[..]))
    {
      ghost var s := Load(input[i..i + 16]);
      var x := LoadQuad(input, i);
      x := DecryptQuad(t, x, s);
      StoreQuad(x, output, o, DecryptState(field, key, s));
    }
  }

  /** The two agree outside the block at o. */
  ghost predicate Outside(o: nat, a: seq<bv8>, b: seq<bv8>) {
    |a| == |b| && forall j :: 0 <= j < |a| && !(o <= j < o + 16) ==> a[j] == b[j]
  }

  /** Four GET_UINT32. */
  method LoadQuad(b: array<bv8>, i: nat) returns (x: Quad)
    requires i + 16 <= b.Length
    ensures x == QuadOf(Load(b[i..i + 16]))
  {
    x := Quad(Word(Col(b[i], b[i + 1], b[i + 2], b[i + 3])), Word(Col(b[i + 4], b[i + 5], b[i + 6], b[i + 7])),
              Word(Col(b[i + 8], b[i + 9], b[i + 10], b[i + 11])),
                    Word(Col(b[i + 12], b[i + 13], b[i + 14], b[i + 15])));
  }

  /** PUT_UINT32. */
  method PutWord32(w: bv32, b: array<bv8>, i: nat, ghost c: Col)
    requires i + 4 <= b.Length && w == Word(c)
    modifies b
    ensures b[i] == c.b0 && b[i + 1] == c.b1 && b[i + 2] == c.b2 && b[i + 3] == c.b3
    ensures forall j :: 0 <= j < b.Length && !(i <= j < i + 4) ==> b[j] == old(b[j])
  {
    BytesOfWord(c);
    b[i], b[i + 1], b[i + 2], b[i + 3] := Byte0(w), Byte1(w), Byte2(w), Byte3(w);
  }

  method StoreQuad(x: Quad, b: array<bv8>, o: nat, ghost s: State)
    requires o + 16 <= b.Length && x == QuadOf(s)
    modifies b
    ensures b[o..o + 16] == Store(s) && Outside(o, b[..], old(b[..]))
  {
    PutWord32(x.w0, b, o, s.c0);
    PutWord32(x.w1, b, o + 4, s.c1);
    PutWord32(x.w2, b, o + 8, s.c2);
    PutWord32(x.w3, b, o + 12, s.c3);
    Stored(b[o..o + 16], s);
  }

  lemma Stored(b: seq<bv8>, s: State)
    requires |b| == 16 && ColAt(b, 0) == s.c0 && ColAt(b, 4) == s.c1 && ColAt(b, 8) == s.c2 && ColAt(b, 12) == s.c3
    ensures b == Store(s)
  {
    LoadStore(s, b);
  }

  // ---- The rounds on words -------------------------------------------------------------------------

  function ForwardQuad(t: Tables, y: Quad, k: Quad): Quad {
    Quad(ForwardWord(t, k.w0, y.w0, y.w1, y.w2, y.w3), ForwardWord(t, k.w1, y.w1, y.w2, y.w3, y.w0),
         ForwardWord(t, k.w2, y.w2, y.w3, y.w0, y.w1), ForwardWord(t, k.w3, y.w3, y.w0, y.w1, y.w2))
  }

  function ReverseQuad(t: Tables, y: Quad, k: Quad): Quad {
    Quad(ReverseWord(t, k.w0, y.w0, y.w3, y.w2, y.w1), ReverseWord(t, k.w1, y.w1, y.w0, y.w3, y.w2),
         ReverseWord(t, k.w2, y.w2, y.w1, y.w0, y.w3), ReverseWord(t, k.w3, y.w3, y.w2, y.w1, y.w0))
  }

  function MixQuad(t: Tables, q: Quad): Quad {
    Quad(KTWord(t, q.w0), KTWord(t, q.w1), KTWord(t, q.w2), KTWord(t, q.w3))
  }

  /** The four words of a forward round make one round of the cipher. */
  lemma ForwardIs(t: Tables, f: Field, s: State, k: State, y: Quad, q: Quad)
    requires Generated(t, f) && y == QuadOf(s) && q == QuadOf(k)
    ensures ForwardQuad(t, y, q) == QuadOf(EncryptRound(f, s, k))
  {
    ForwardWordIs(t, f, k.c0, s.c0, s.c1, s.c2, s.c3);
    ForwardWordIs(t, f, k.c1, s.c1, s.c2, s.c3, s.c0);
    ForwardWordIs(t, f, k.c2, s.c2, s.c3, s.c0, s.c1);
    ForwardWordIs(t, f, k.c3, s.c3, s.c0, s.c1, s.c2);
  }

  lemma ReverseIs(t: Tables, f: Field, s: State, k: State, y: Quad, q: Quad)
    requires Generated(t, f) && y == QuadOf(s) && q == QuadOf(k)
    ensures ReverseQuad(t, y, q) == QuadOf(DecryptRound(f, s, k))
  {
    ReverseWordIs(t, f, k.c0, s.c0, s.c3, s.c2, s.c1);
    ReverseWordIs(t, f, k.c1, s.c1, s.c0, s.c3, s.c2);
    ReverseWordIs(t, f, k.c2, s.c2, s.c1, s.c0, s.c3);
    ReverseWordIs(t, f, k.c3, s.c3, s.c2, s.c1, s.c0);
  }

  lemma MixIs(t: Tables, f: Field, k: State, q: Quad)
    requires Generated(t, f) && f.Valid() && q == QuadOf(k)
    ensures MixQuad(t, q) == QuadOf(InvMixColumns(f, k))
  {
    KTWordIs(t, f, k.c0);
    KTWordIs(t, f, k.c1);
    KTWordIs(t, f, k.c2);
    KTWordIs(t, f, k.c3);
  }

  function XorQuad(x: Quad, k: Quad): Quad {
    Quad(XorWord(x.w0, k.w0), XorWord(x.w1, k.w1), XorWord(x.w2, k.w2), XorWord(x.w3, k.w3))
  }

  lemma AddQuads(s: State, k: State, x: Quad, q: Quad)
    requires x == QuadOf(s) && q == QuadOf(k)
    ensures XorQuad(x, q) == QuadOf(AddRoundKey(s, k))
  {
    WordOfXor(s.c0, k.c0);
    WordOfXor(s.c1, k.c1);
    WordOfXor(s.c2, k.c2);
    WordOfXor(s.c3, k.c3);
  }

  function LastQuad(box: bv8 -> bv32, y: Quad, k: Quad): Quad {
    Quad(LastWord(box, k.w0, y.w0, y.w1, y.w2, y.w3), LastWord(box, k.w1, y.w1, y.w2, y.w3, y.w0),
         LastWord(box, k.w2, y.w2, y.w3, y.w0, y.w1), LastWord(box, k.w3, y.w3, y.w0, y.w1, y.w2))
  }

  function InvLastQuad(box: bv8 -> bv32, y: Quad, k: Quad): Quad {
    Quad(LastWord(box, k.w0, y.w0, y.w3, y.w2, y.w1), LastWord(box, k.w1, y.w1, y.w0, y.w3, y.w2),
         LastWord(box, k.w2, y.w2, y.w1, y.w0, y.w3), LastWord(box, k.w3, y.w3, y.w2, y.w1, y.w0))
  }

  lemma LastForward(t: Tables, f: Field, s: State, k: State, y: Quad, q: Quad)
    requires Generated(t, f) && y == QuadOf(s) && q == QuadOf(k)
    ensures LastQuad(t.FSb, y, q) == QuadOf(AddRoundKey(SubShift(f, s), k))
  {
    forall b ensures t.FSb(b) == f.sub(b) as bv32 { SEntry(t, f, b); }
    LastWordIs(t.FSb, f.sub, k.c0, s.c0, s.c1, s.c2, s.c3);
    LastWordIs(t.FSb, f.sub, k.c1, s.c1, s.c2, s.c3, s.c0);
    LastWordIs(t.FSb, f.sub, k.c2, s.c2, s.c3, s.c0, s.c1);
    LastWordIs(t.FSb, f.sub, k.c3, s.c3, s.c0, s.c1, s.c2);
  }

  lemma LastReverse(t: Tables, f: Field, s: State, k: State, y: Quad, q: Quad)
    requires Generated(t, f) && y == QuadOf(s) && q == QuadOf(k)
    ensures InvLastQuad(t.RSb, y, q) == QuadOf(AddRoundKey(InvShiftRows(SubBytes(f.invSub, s)), k))
  {
    forall b ensures t.RSb(b) == f.invSub(b) as bv32 { SEntry(t, f, b); }
    LastWordIs(t.RSb, f.invSub, k.c0, s.c0, s.c3, s.c2, s.c1);
    LastWordIs(t.RSb, f.invSub, k.c1, s.c1, s.c0, s.c3, s.c2);
    LastWordIs(t.RSb, f.invSub, k.c2, s.c2, s.c1, s.c0, s.c3);
    LastWordIs(t.RSb, f.invSub, k.c3, s.c3, s.c2, s.c1, s.c0);
  }
}
