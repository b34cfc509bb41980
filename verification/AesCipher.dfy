/** The cipher, the inverse cipher and the equivalent inverse cipher of FIPS 197 (sections 5.1, 5.3 and 5.3.5). */
module AesCipher {
  import opened AesField

  /** The state by columns. */
  datatype State = State(c0: Col, c1: Col, c2: Col, c3: Col)

  function AddRoundKey(s: State, k: State): State {
    State(Xor(s.c0, k.c0), Xor(s.c1, k.c1), Xor(s.c2, k.c2), Xor(s.c3, k.c3))
  }

  function MapCol(g: bv8 -> bv8, c: Col): Col { Col(g(c.b0), g(c.b1), g(c.b2), g(c.b3)) }

  function SubBytes(g: bv8 -> bv8, s: State): State {
    State(MapCol(g, s.c0), MapCol(g, s.c1), MapCol(g, s.c2), MapCol(g, s.c3))
  }

  /** Row r moves r places to the left. */
  function ShiftRows(s: State): State {
    State(Col(s.c0.b0, s.c1.b1, s.c2.b2, s.c3.b3), Col(s.c1.b0, s.c2.b1, s.c3.b2, s.c0.b3),
          Col(s.c2.b0, s.c3.b1, s.c0.b2, s.c1.b3), Col(s.c3.b0, s.c0.b1, s.c1.b2, s.c2.b3))
  }

  function InvShiftRows(s: State): State {
    State(Col(s.c0.b0, s.c3.b1, s.c2.b2, s.c1.b3), Col(s.c1.b0, s.c0.b1, s.c3.b2, s.c2.b3),
          Col(s.c2.b0, s.c1.b1, s.c0.b2, s.c3.b3), Col(s.c3.b0, s.c2.b1, s.c1.b2, s.c0.b3))
  }

  function MixColumns(f: Field, s: State): State {
    State(f.MixCol(s.c0), f.MixCol(s.c1), f.MixCol(s.c2), f.MixCol(s.c3))
  }

  function InvMixColumns(f: Field, s: State): State {
    State(f.InvMixCol(s.c0), f.InvMixCol(s.c1), f.InvMixCol(s.c2), f.InvMixCol(s.c3))
  }

  // ---- The cipher --------------------------------------------------------------------------------

  /** SubBytes and ShiftRows, the first half of every round. */
  function SubShift(f: Field, s: State): State { ShiftRows(SubBytes(f.sub, s)) }

  function EncryptRound(f: Field, s: State, key: State): State { AddRoundKey(MixColumns(f, SubShift(f, s)), key) }

  function DecryptRound(f: Field, s: State, key: State): State {
    AddRoundKey(InvMixColumns(f, InvShiftRows(SubBytes(f.invSub, s))), key)
  }

  /** The round of section 5.3, in its own order. */
  function StraightRound(f: Field, s: State, key: State): State {
    InvMixColumns(f, AddRoundKey(SubBytes(f.invSub, InvShiftRows(s)), key))
  }

  type Step = (State, State) -> State

  function Encrypting(f: Field): Step { (s, key) => EncryptRound(f, s, key) }
  function Decrypting(f: Field): Step { (s, key) => DecryptRound(f, s, key) }
  function HalfRound(f: Field): State -> State { s => SubShift(f, s) }
  function Straight(f: Field): Step { (s, key) => StraightRound(f, s, key) }

  /** The state after r rounds from s, round i taking key number i. */
  function Rounds(step: Step, k: seq<State>, s: State, r: nat): State
    requires r < |k|
  {
    if r == 0 then s else step(Rounds(step, k, s, r - 1), k[r])
  }

  function Cipher(f: Field, k: seq<State>, s: State): State
    requires |k| >= 2
  {
    AddRoundKey(SubShift(f, Rounds(Encrypting(f), k, AddRoundKey(s, k[0]), |k| - 2)), k[|k| - 1])
  }

  function Reverse(k: seq<State>): (b: seq<State>)
    ensures |b| == |k| && forall r :: 0 <= r < |k| ==> b[r] == k[|k| - 1 - r]
  {
    seq(|k|, r requires 0 <= r < |k| => k[|k| - 1 - r])
  }

  function InvCipher(f: Field, k: seq<State>, s: State): State
    requires |k| >= 2
  {
    var b := Reverse(k);
    AddRoundKey(SubBytes(f.invSub, InvShiftRows(Rounds(Straight(f), b, AddRoundKey(s, b[0]), |k| - 2))), b[|k| - 1])
  }

  /** The key schedule of the equivalent inverse cipher: reversed, and all but the first and last
      round keys through InvMixColumns. */
  function DecryptionKeys(f: Field, k: seq<State>): (dk: seq<State>)
    ensures |dk| == |k|
    ensures forall r :: 0 <= r < |k| ==>
              dk[r] == if r == 0 || r == |k| - 1 then k[|k| - 1 - r] else InvMixColumns(f, k[|k| - 1 - r])
  {
    seq(|k|, r requires 0 <= r < |k| =>
      if r == 0 || r == |k| - 1 then k[|k| - 1 - r] else InvMixColumns(f, k[|k| - 1 - r]))
  }

  /** Section 5.3.5: the steps of the cipher replaced by their inverses, under a schedule of its own. */
  function EqInvCipher(f: Field, dk: seq<State>, s: State): State
    requires |dk| >= 2
  {
    AddRoundKey(InvShiftRows(SubBytes(f.invSub, Rounds(Decrypting(f), dk, AddRoundKey(s, dk[0]), |dk| - 2))),
          dk[|dk| - 1])
  }

  // ---- The steps and their inverses ----------------------------------------------------------------

  lemma AddRoundKeyBack(s: State, k: State)
    ensures AddRoundKey(AddRoundKey(s, k), k) == s
  {
    XorBack(s.c0, k.c0);
    XorBack(s.c1, k.c1);
    XorBack(s.c2, k.c2);
    XorBack(s.c3, k.c3);
  }

  lemma MapColBack(f: Field, c: Col)
    requires f.Valid()
    ensures MapCol(f.invSub, MapCol(f.sub, c)) == c
  {
    assert f.Undone(c.b0) && f.Undone(c.b1) && f.Undone(c.b2) && f.Undone(c.b3);
  }

  lemma SubShiftBack(f: Field, s: State)
    requires f.Valid()
    ensures InvShiftRows(SubBytes(f.invSub, SubShift(f, s))) == s
  {
    MapColBack(f, s.c0);
    MapColBack(f, s.c1);
    MapColBack(f, s.c2);
    MapColBack(f, s.c3);
    SubShiftCommute(f.invSub, SubShift(f, s));
    assert InvShiftRows(SubShift(f, s)) == SubBytes(f.sub, s);
  }

  lemma SubShiftCommute(g: bv8 -> bv8, s: State)
    ensures InvShiftRows(SubBytes(g, s)) == SubBytes(g, InvShiftRows(s))
  {}

  lemma InvMixColumnsOfMixColumns(f: Field, s: State)
    requires f.Valid()
    ensures InvMixColumns(f, MixColumns(f, s)) == s
  {
    f.InvMixColOfMixCol(s.c0);
    f.InvMixColOfMixCol(s.c1);
    f.InvMixColOfMixCol(s.c2);
    f.InvMixColOfMixCol(s.c3);
  }

  lemma InvMixColumnsAdd(f: Field, s: State, k: State)
    requires f.Valid()
    ensures InvMixColumns(f, AddRoundKey(s, k)) == AddRoundKey(InvMixColumns(f, s), InvMixColumns(f, k))
  {
    f.InvMixColXor(s.c0, k.c0);
    f.InvMixColXor(s.c1, k.c1);
    f.InvMixColXor(s.c2, k.c2);
    f.InvMixColXor(s.c3, k.c3);
  }

  lemma EqStep(f: Field, t: State, key: State)
    requires f.Valid()
    ensures DecryptRound(f, t, InvMixColumns(f, key)) == StraightRound(f, t, key)
  {
    SubShiftCommute(f.invSub, t);
    InvMixColumnsAdd(f, SubBytes(f.invSub, InvShiftRows(t)), key);
  }

  /** One round back: e is the state before a round with that key. */
  lemma RetraceStep(f: Field, e: State, key: State)
    requires f.Valid()
    ensures DecryptRound(f, SubShift(f, EncryptRound(f, e, key)), InvMixColumns(f, key)) == SubShift(f, e)
  {
    var mixed := MixColumns(f, SubShift(f, e));
    SubShiftBack(f, AddRoundKey(mixed, key));
    InvMixColumnsAdd(f, mixed, key);
    InvMixColumnsOfMixColumns(f, SubShift(f, e));
    AddRoundKeyBack(InvMixColumns(f, mixed), InvMixColumns(f, key));
  }

  // ---- Runs of rounds ------------------------------------------------------------------------------

  predicate SameStep(one: Step, other: Step, b: seq<State>, c: seq<State>, t: State, r: nat)
    requires r < |b| == |c|
  {
    one(t, b[r]) == other(t, c[r])
  }

  lemma {:induction false} SameRounds(one: Step, other: Step, b: seq<State>, c: seq<State>, s: State, r: nat)
    requires r < |b| == |c|
    requires forall t, i {:trigger SameStep(one, other, b, c, t, i)} :: 1 <= i <= r ==> SameStep(one, other, b, c, t, i)
    ensures Rounds(one, b, s, r) == Rounds(other, c, s, r)
  {
    if r > 0 {
      SameRounds(one, other, b, c, s, r - 1);
      assert SameStep(one, other, b, c, Rounds(one, b, s, r - 1), r);
    }
  }

  /** Round r of the run back undoes round |k| - 1 - r of the run forth, seen through half. */
  predicate BackStep(forth: Step, back: Step, half: State -> State, k: seq<State>, dk: seq<State>, e: State, r: nat)
    requires r < |k| == |dk|
  {
    back(half(forth(e, k[|k| - 1 - r])), dk[r]) == half(e)
  }

  /** Round by round, the run back walks through the states of the run forth. */
  lemma {:induction false} Retrace(forth: Step, back: Step, half: State -> State, k: seq<State>, dk: seq<State>,
                                   s: State, c: State, r: nat)
    requires r < |k| - 1 && |k| == |dk|
    requires c == half(Rounds(forth, k, s, |k| - 2))
    requires forall e, i {:trigger BackStep(forth, back, half, k, dk, e, i)} ::
               1 <= i < |k| - 1 ==> BackStep(forth, back, half, k, dk, e, i)
    ensures Rounds(back, dk, c, r) == half(Rounds(forth, k, s, |k| - 2 - r))
  {
    if r > 0 {
      Retrace(forth, back, half, k, dk, s, c, r - 1);
      assert BackStep(forth, back, half, k, dk, Rounds(forth, k, s, |k| - 2 - r), r);
    }
  }

  // ---- Main results --------------------------------------------------------------------------------

  /** The equivalent inverse cipher is the inverse cipher. */
  lemma EqInvCipherIsInvCipher(f: Field, k: seq<State>, s: State)
    requires f.Valid() && |k| >= 2
    ensures EqInvCipher(f, DecryptionKeys(f, k), s) == InvCipher(f, k, s)
  {
    var b, dk, n := Reverse(k), DecryptionKeys(f, k), |k| - 2;
    var one, other := Decrypting(f), Straight(f);
    forall t, i | 1 <= i <= n ensures SameStep(one, other, dk, b, t, i) { EqStep(f, t, b[i]); }
    SameRounds(one, other, dk, b, AddRoundKey(s, k[n + 1]), n);
    SubShiftCommute(f.invSub, Rounds(one, dk, AddRoundKey(s, k[n + 1]), n));
  }

  lemma StepBack(f: Field, k: seq<State>, e: State, i: nat)
    requires f.Valid() && 1 <= i < |k| - 1
    ensures BackStep(Encrypting(f), Decrypting(f), HalfRound(f), k, DecryptionKeys(f, k), e, i)
  {
    RetraceStep(f, e, k[|k| - 1 - i]);
  }

  lemma WalkBack(f: Field, k: seq<State>, s: State)
    requires f.Valid() && |k| >= 2
    ensures Rounds(Decrypting(f), DecryptionKeys(f, k), SubShift(f, Rounds(Encrypting(f), k, s, |k| - 2)), |k| - 2)
         == SubShift(f, s)
  {
    var dk, forth, back, half := DecryptionKeys(f, k), Encrypting(f), Decrypting(f), HalfRound(f);
    forall e, i | 1 <= i < |k| - 1 ensures BackStep(forth, back, half, k, dk, e, i) { StepBack(f, k, e, i); }
    Retrace(forth, back, half, k, dk, s, half(Rounds(forth, k, s, |k| - 2)), |k| - 2);
  }

  /** Decryption undoes encryption, for any key schedule of at least two round keys. */
  lemma DecryptionUndoesEncryption(f: Field, k: seq<State>, s: State)
    requires f.Valid() && |k| >= 2
    ensures EqInvCipher(f, DecryptionKeys(f, k), Cipher(f, k, s)) == s
  {
    var s0 := AddRoundKey(s, k[0]);
    AddRoundKeyBack(SubShift(f, Rounds(Encrypting(f), k, s0, |k| - 2)), k[|k| - 1]);
    WalkBack(f, k, s0);
    SubShiftBack(f, s0);
    AddRoundKeyBack(s, k[0]);
  }
}
