/** Arrays on the wire. A writer may send the elements of an array packed into blocks, one by one under their own tags,
    or both in turn; the decoder gathers them all, in the order in which they come. */
module PbArrays {
  import opened Words
  import opened PbVarint
  import opened PbStream
  import opened PbModel
  import opened PbEncode
  import opened PbDecodeSpec
  import opened PbRoundTrip

  /** One record of an array: an element under its own tag, or a packed block of any number. */
  datatype Piece = Element(v: Value) | Block(vs: seq<Value>)

  function Held(p: Piece): seq<Value> {
    match p case Element(v) => [v] case Block(vs) => vs
  }

  /** All elements, in order. */
  function AllHeld(ps: seq<Piece>): seq<Value> {
    if ps == [] then [] else AllHeld(ps[..|ps| - 1]) + Held(ps[|ps| - 1])
  }

  /** Only numbers can be packed. */
  predicate GoodPiece(f: Field, p: Piece) { TypedItems(f, Held(p)) && (p.Block? ==> f.ltype.Packable()) }

  predicate GoodPieces(f: Field, ps: seq<Piece>) { forall j :: 0 <= j < |ps| ==> GoodPiece(f, ps[j]) }

  function PieceBytes(f: Field, p: Piece): Option<seq<u8>>
    requires GoodPiece(f, p)
  {
    match p case Element(v) => assert v == Held(p)[0]; EncTagged(f, v) case Block(vs) => EncPacked(f, vs)
  }

  function PiecesBytes(f: Field, ps: seq<Piece>): Option<seq<u8>>
    requires GoodPieces(f, ps)
  {
    if ps == [] then Some([]) else Cat(PiecesBytes(f, ps[..|ps| - 1]), PieceBytes(f, ps[|ps| - 1]))
  }

  // ---- In any state ------------------------------------------------------------------------------------

  /** Reading a packed block comes to s', with the array as items' and c' numbers of it read. */
  ghost predicate Leads(f: Field, s: seq<u8>, items: seq<Value>, c: nat, s': seq<u8>, items': seq<Value>, c': nat) {
    forall u {:trigger Unfold(u)} :: u == 0 ==> DecPacked(f, s, items, c) == DecPacked(f, s', items', c')
  }

  lemma LeadsOn(f: Field, s: seq<u8>, items: seq<Value>, c: nat, s': seq<u8>, items': seq<Value>, c': nat,
                s'': seq<u8>, items'': seq<Value>, c'': nat)
    requires Leads(f, s, items, c, s', items', c') && Leads(f, s', items', c', s'', items'', c'')
    ensures Leads(f, s, items, c, s'', items'', c'')
  {
    assert Unfold(0);
  }

  /** One more number. */
  lemma {:induction false} PayloadStep(f: Field, vs: seq<Value>, k: nat, rest: seq<u8>)
    requires GoodField(f) && f.ltype.Packable() && TypedItems(f, vs) && k < |vs| && Payload(f, vs, k).Some?
    ensures vs[k].VInt? && TypedValue(f, VInt(vs[k].n)) && EncScalar(f, vs[k].n).Some? && Payload(f, vs, k + 1).Some?
    ensures Payload(f, vs, k + 1).value + rest == Payload(f, vs, k).value + (EncScalar(f, vs[k].n).value + rest)
  {
    assert TypedValue(f, vs[k]);
    ScalarRoundTrip(f, vs[k].n, VInt(0), rest);
    JoinThree(Payload(f, vs, k).value, EncScalar(f, vs[k].n).value, rest);
  }

  /** One number of a packed block. */
  lemma {:induction false} NumberTaken(f: Field, n: int, items: seq<Value>, rest: seq<u8>)
    requires GoodField(f) && f.ltype.Packable() && TypedValue(f, VInt(n)) && EncScalar(f, n).Some?
    requires |items| < f.arraySize
    ensures Leads(f, EncScalar(f, n).value + rest, items, |items|, rest, items + [VInt(n)], |items| + 1)
  {
    ScalarRoundTrip(f, n, ItemStart(f, items, |items|), rest);
    var e := EncScalar(f, n).value;
    assert (e + rest)[|e|..] == rest;
    assert DecPacked(f, e + rest, items, |items|) == DecPacked(f, rest, items + [VInt(n)], |items| + 1);
  }

  /** The first k numbers of a packed block, when there is room for them. */
  lemma {:induction false} NumbersTaken(f: Field, vs: seq<Value>, items: seq<Value>, k: nat, rest: seq<u8>)
    requires GoodField(f) && f.ltype.Packable() && TypedItems(f, vs) && k <= |vs| && |items| + k <= f.arraySize
    ensures Payload(f, vs, k).Some?
    ensures Leads(f, Payload(f, vs, k).value + rest, items, |items|, rest, items + vs[..k], |items| + k)
    decreases k
  {
    if k == 0 {
      assert Payload(f, vs, k).value + rest == rest && items + vs[..k] == items;
    } else {
      var j := k - 1;
      NumbersTaken(f, vs, items, j, []);
      PayloadStep(f, vs, j, rest);
      var before, n := items + vs[..j], vs[j].n;
      var e := EncScalar(f, n).value;
      NumberTaken(f, n, before, rest);
      NumbersTaken(f, vs, items, j, e + rest);
      assert before + [VInt(n)] == items + vs[..k];
      LeadsOn(f, Payload(f, vs, k).value + rest, items, |items|, e + rest, before, |items| + j,
              rest, items + vs[..k], |items| + k);
    }
  }

  /** All the numbers of a block, of which k fill the array. */
  lemma {:induction false} NumbersOverflow(f: Field, vs: seq<Value>, items: seq<Value>, k: nat, n: nat, rest: seq<u8>)
    requires GoodField(f) && f.ltype.Packable() && TypedItems(f, vs) && k < n <= |vs| && |items| + k == f.arraySize
    ensures Payload(f, vs, n).Some? && DecPacked(f, Payload(f, vs, n).value + rest, items, |items|).None?
    decreases n
  {
    var j := n - 1;
    if j == k { NumbersTaken(f, vs, items, j, []); } else { NumbersOverflow(f, vs, items, k, j, []); }
    PayloadStep(f, vs, j, rest);
    var e := EncScalar(f, vs[j].n).value;
    if j == k {
      NumbersTaken(f, vs, items, j, e + rest);
      ScalarRoundTrip(f, vs[j].n, VInt(0), rest);
      FullFails(f, e + rest, items + vs[..j]);
      assert Unfold(0);
    } else {
      NumbersOverflow(f, vs, items, k, j, e + rest);
    }
  }

  lemma FullFails(f: Field, s: seq<u8>, items: seq<Value>)
    requires |items| == f.arraySize && s != []
    ensures DecPacked(f, s, items, |items|) == None
  {}

  /** Where all records of a list of numbers stand among others does not matter: in any state, one record appends its
      elements to a counted array and changes nothing else, or fails for want of room. */
  lemma {:induction false} NumbersAppended(d: MsgDesc, st: DState, i: nat, p: Piece, rest: seq<u8>)
    requires GoodDesc(d) && SortedDesc(d) && |st.msg| == |d.fields| && i < |d.fields| && st.msg[i].Rep?
    requires d.fields[i].htype.Repeated? && d.fields[i].ltype.Packable() && GoodPiece(d.fields[i], p)
    requires |st.msg[i].items| <= d.fields[i].arraySize
    requires PieceBytes(d.fields[i], p).Some? && |PieceBytes(d.fields[i], p).value| < TWO32
    ensures var f, items := d.fields[i], st.msg[i].items + Held(p);
            DecLoop(d, PieceBytes(f, p).value + rest, st)
              == if |items| <= f.arraySize then DecLoop(d, rest, st.(msg := st.msg[i := Rep(items)])) else None
  {
    var f, items := d.fields[i], st.msg[i].items + Held(p);
    assert GoodField(f);
    match p {
      case Element(v) =>
        assert v == Held(p)[0] && TypedValue(f, Held(p)[0]);
        ElementAppended(d, st, i, v.n, rest);
      case Block(vs) =>
        BlockAppended(d, st, i, vs, rest);
    }
  }

  lemma {:induction false} ElementAppended(d: MsgDesc, st: DState, i: nat, n: int, rest: seq<u8>)
    requires GoodDesc(d) && SortedDesc(d) && |st.msg| == |d.fields| && i < |d.fields| && st.msg[i].Rep?
    requires d.fields[i].htype.Repeated? && d.fields[i].ltype.Packable() && TypedValue(d.fields[i], VInt(n))
    requires |st.msg[i].items| <= d.fields[i].arraySize && EncTagged(d.fields[i], VInt(n)).Some?
    ensures var f, items := d.fields[i], st.msg[i].items + [VInt(n)];
            DecLoop(d, EncTagged(f, VInt(n)).value + rest, st)
              == if |items| <= f.arraySize then DecLoop(d, rest, st.(msg := st.msg[i := Rep(items)])) else None
  {
    var f, was := d.fields[i], st.msg[i].items;
    assert GoodField(f);
    var e := EncScalar(f, n).value;
    ScalarRoundTrip(f, n, ItemStart(f, was, |was|), rest);
    if |was| < f.arraySize {
      var st' := st.(msg := st.msg[i := Rep(was + [VInt(n)])]);
      assert DecArray(d, st, i, WireType(f.ltype), e + rest) == Some((st', |e|));
      RecordRoundTrip(d, st, i, WireType(f.ltype), e, rest, st');
    } else {
      assert DecArray(d, st, i, WireType(f.ltype), e + rest) == None;
      RecordFails(d, st, i, WireType(f.ltype), e, rest);
    }
  }

  lemma {:induction false} WholeBlockTaken(f: Field, vs: seq<Value>, was: seq<Value>)
    requires GoodField(f) && f.ltype.Packable() && TypedItems(f, vs) && |was| + |vs| <= f.arraySize
    ensures Payload(f, vs, |vs|).Some?
    ensures DecPacked(f, Payload(f, vs, |vs|).value, was, |was|) == Some((was + vs, |was| + |vs|))
  {
    NumbersTaken(f, vs, was, |vs|, []);
    assert vs[..|vs|] == vs;
    assert Payload(f, vs, |vs|).value + [] == Payload(f, vs, |vs|).value;
    assert Unfold(0);
    assert DecPacked(f, [], was + vs, |was| + |vs|) == Some((was + vs, |was| + |vs|));
  }

  lemma {:induction false} BlockAppended(d: MsgDesc, st: DState, i: nat, vs: seq<Value>, rest: seq<u8>)
    requires GoodDesc(d) && SortedDesc(d) && |st.msg| == |d.fields| && i < |d.fields| && st.msg[i].Rep?
    requires d.fields[i].htype.Repeated? && d.fields[i].ltype.Packable() && TypedItems(d.fields[i], vs)
    requires |st.msg[i].items| <= d.fields[i].arraySize
    requires EncPacked(d.fields[i], vs).Some? && |EncPacked(d.fields[i], vs).value| < TWO32
    ensures var f, items := d.fields[i], st.msg[i].items + vs;
            DecLoop(d, EncPacked(f, vs).value + rest, st)
              == if |items| <= f.arraySize then DecLoop(d, rest, st.(msg := st.msg[i := Rep(items)])) else None
  {
    var f, was := d.fields[i], st.msg[i].items;
    assert GoodField(f);
    var b := Payload(f, vs, |vs|).value;
    var p := LengthPrefixed(b);
    BlockRoundTrip(b, rest);
    assert b + [] == b;
    if |was| + |vs| <= f.arraySize {
      WholeBlockTaken(f, vs, was);
      var st' := st.(msg := st.msg[i := Rep(was + vs)]);
      assert DecPackedBlock(f, p + rest, was, |was|) == Some(((was + vs, |was| + |vs|), |p|));
      PackedFieldIs(d, st, st, i, p + rest, was, |was|, was + vs, |was| + |vs|, |p|);
      RecordRoundTrip(d, st, i, WT_STRING, p, rest, st');
    } else {
      var k := f.arraySize - |was|;
      NumbersOverflow(f, vs, was, k, |vs|, []);
      assert DecPackedBlock(f, p + rest, was, |was|) == None;
      assert DecArray(d, st, i, WT_STRING, p + rest) == None;
      RecordFails(d, st, i, WT_STRING, p, rest);
    }
  }

  /** A tag followed by a payload that field number i rejects. */
  lemma {:induction false} RecordFails(d: MsgDesc, st: DState, i: nat, wt: nat, p: seq<u8>, rest: seq<u8>)
    requires GoodDesc(d) && SortedDesc(d) && i < |d.fields| && wt < 8 && |st.msg| == |d.fields|
    requires DecField(d, st, i, wt, p + rest) == None
    ensures DecLoop(d, TagBytes(Tag(d.fields[i].tag, wt)) + p + rest, st) == None
  {
    assert GoodField(d.fields[i]);
    var tag := Tag(d.fields[i].tag, wt);
    var tb := TagBytes(tag);
    assert tb + p + rest == tb + (p + rest);
    TagRoundTrip(tag, p + rest);
    FindUnique(d, i, 0);
    StepBy(d, tb + (p + rest), st, tag, |tb|, p + rest);
  }

  // ---- In a message ---------------------------------------------------------------------------------------

  /** The state when k elements of array i have been decoded and the decoder is in that array. */
  function InArray(d: MsgDesc, m: seq<Slot>, t: seq<Slot>, i: nat, k: nat): (r: DState)
    requires Typed(d, m) && Fresh(d, t) && i < |m| && IsArray(d.fields[i]) && TypedSlot(d.fields[i], m[i])
          && k <= |m[i].items|
    ensures |r.msg| == |m|
  {
    ArrayStateIs(d, m, t, i, k);
    Enter(d, ArrayState(d, m, t, i, k), i).value
  }

  lemma EnteredTwice(d: MsgDesc, st: DState, i: nat, wt: nat, s: seq<u8>)
    requires |st.msg| == |d.fields| && i < |d.fields| && IsArray(d.fields[i]) && Enter(d, st, i).Some?
    ensures DecField(d, Enter(d, st, i).value, i, wt, s) == DecField(d, st, i, wt, s)
  {}

  /** Elements k to k + n of the array, packed. */
  lemma {:induction false} SlicePacked(f: Field, items: seq<Value>, t: seq<Value>, k: nat, vs: seq<Value>, n: nat,
        rest: seq<u8>)
    requires GoodField(f) && f.ltype.Packable() && TypedItems(f, items) && TypedItems(f, vs)
    requires n <= |vs| && k + n <= |items| <= f.arraySize && forall j :: 0 <= j < n ==> items[k + j] == vs[j]
    ensures Payload(f, vs, n).Some?
    ensures Leads(f, Payload(f, vs, n).value + rest, MergeItems(f, items, t, k), k,
                  rest, MergeItems(f, items, t, k + n), k + n)
    decreases n
  {
    if n == 0 {
      assert Payload(f, vs, n).value + rest == rest;
    } else {
      var j, at := n - 1, k + n - 1;
      SlicePacked(f, items, t, k, vs, j, []);
      PayloadStep(f, vs, j, rest);
      var e := EncScalar(f, vs[j].n).value;
      SlicePacked(f, items, t, k, vs, j, e + rest);
      assert items[k + j] == vs[j];
      OneOfSlice(f, items, t, at, rest);
      LeadsOn(f, Payload(f, vs, n).value + rest, MergeItems(f, items, t, k), k,
              e + rest, MergeItems(f, items, t, at), at, rest, MergeItems(f, items, t, k + n), k + n);
    }
  }

  lemma {:induction false} OneOfSlice(f: Field, items: seq<Value>, t: seq<Value>, k: nat, rest: seq<u8>)
    requires GoodField(f) && f.ltype.Packable() && TypedItems(f, items) && k < |items| <= f.arraySize
    requires TypedValue(f, items[k]) && EncScalar(f, items[k].n).Some?
    ensures Leads(f, EncScalar(f, items[k].n).value + rest, MergeItems(f, items, t, k), k,
                  rest, MergeItems(f, items, t, k + 1), k + 1)
  {
    PackedStep(f, items, t, k, rest);
  }

  /** The loop on s comes to state st' with rest to be read. */
  ghost predicate Comes(d: MsgDesc, s: seq<u8>, st: DState, rest: seq<u8>, st': DState)
    requires |st.msg| == |d.fields| == |st'.msg|
  {
    forall u {:trigger Unfold(u)} :: u == 0 ==> DecLoop(d, s, st) == DecLoop(d, rest, st')
  }

  lemma ComesOn(d: MsgDesc, s: seq<u8>, st: DState, s': seq<u8>, st': DState, s'': seq<u8>, st'': DState)
    requires |st.msg| == |d.fields| == |st'.msg| == |st''.msg|
    requires Comes(d, s, st, s', st') && Comes(d, s', st', s'', st'')
    ensures Comes(d, s, st, s'', st'')
  {
    assert Unfold(0);
  }

  /** A record that field number i accepts in state a is accepted in the state that entering the field leads to. */
  lemma {:induction false} RecordComes(d: MsgDesc, a: DState, st: DState, i: nat, wt: nat, b: seq<u8>, e: seq<u8>,
        rest: seq<u8>, st': DState)
    requires GoodDesc(d) && SortedDesc(d) && i < |d.fields| && wt < 8 && |a.msg| == |d.fields| == |st'.msg|
    requires IsArray(d.fields[i]) && Enter(d, a, i).Some? && (st == a || st == Enter(d, a, i).value)
    requires DecField(d, a, i, wt, b + rest) == Some((st', |b|)) && e == TagBytes(Tag(d.fields[i].tag, wt)) + b
    ensures |st.msg| == |d.fields| && Comes(d, e + rest, st, rest, st')
  {
    EnteredTwice(d, a, i, wt, b + rest);
    RecordRoundTrip(d, st, i, wt, b, rest, st');
  }

  /** A record of the next elements leads from the state before them to the state after. */
  lemma {:induction false} PieceRoundTrip(d: MsgDesc, m: seq<Slot>, t: seq<Slot>, i: nat, k: nat, p: Piece,
        st: DState, rest: seq<u8>)
    requires GoodDesc(d) && SortedDesc(d) && Typed(d, m) && Fresh(d, t) && i < |m| && IsArray(d.fields[i])
    requires TypedSlot(d.fields[i], m[i]) && GoodPiece(d.fields[i], p)
    requires k + |Held(p)| <= |m[i].items| <= d.fields[i].arraySize
    requires forall j :: 0 <= j < |Held(p)| ==> m[i].items[k + j] == Held(p)[j]
    requires PieceBytes(d.fields[i], p).Some? && |PieceBytes(d.fields[i], p).value| < TWO32
    requires st == InArray(d, m, t, i, k) || (k == 0 && st == StateAfter(d, m, t, i))
    ensures Comes(d, PieceBytes(d.fields[i], p).value + rest, st, rest, InArray(d, m, t, i, k + |Held(p)|))
  {
    var f, a, e := d.fields[i], ArrayState(d, m, t, i, k), PieceBytes(d.fields[i], p).value;
    ArrayStateIs(d, m, t, i, k);
    match p {
      case Element(v) =>
        assert m[i].items[k + 0] == Held(p)[0];
        var b := EncValue(f, v).value;
        ElementInArray(d, m, t, i, k, b, rest);
        RecordComes(d, a, st, i, WireType(f.ltype), b, e, rest, InArray(d, m, t, i, k + 1));
      case Block(vs) =>
        var b := LengthPrefixed(Payload(f, vs, |vs|).value);
        PrefixedLonger(Payload(f, vs, |vs|).value);
        BlockInArray(d, m, t, i, k, vs, rest);
        RecordComes(d, a, st, i, WT_STRING, b, e, rest, InArray(d, m, t, i, k + |vs|));
    }
  }

  lemma PrefixedLonger(b: seq<u8>)
    ensures |LengthPrefixed(b)| >= |b|
  {}

  lemma {:induction false} ElementInArray(d: MsgDesc, m: seq<Slot>, t: seq<Slot>, i: nat, k: nat, e: seq<u8>,
        rest: seq<u8>)
    requires GoodDesc(d) && SortedDesc(d) && Typed(d, m) && Fresh(d, t) && i < |m| && IsArray(d.fields[i])
    requires TypedSlot(d.fields[i], m[i]) && k < |m[i].items| <= d.fields[i].arraySize
          && TypedValue(d.fields[i], m[i].items[k])
    requires EncValue(d.fields[i], m[i].items[k]) == Some(e) && |e| < TWO32
    ensures DecField(d, ArrayState(d, m, t, i, k), i, WireType(d.fields[i].ltype), e + rest)
         == Some((InArray(d, m, t, i, k + 1), |e|))
  {
    var f, items, t0 := d.fields[i], m[i].items, ItemsOf(t[i]);
    assert GoodField(f) && SortedField(f, d.hasDefaults);
    ArrayStateIs(d, m, t, i, k);
    ArrayStateIs(d, m, t, i, k + 1);
    ItemStartFresh(f, d.hasDefaults, items, t0, k);
    ValueRoundTrip(f, items[k], ItemStart(f, MergeItems(f, items, t0, k), k), rest);
    ElementField(d, m, t, i, k, e, rest);
    assert Enter(d, ArrayState(d, m, t, i, k + 1), i).value == ArrayState(d, m, t, i, k + 1);
  }

  lemma {:induction false} BlockInArray(d: MsgDesc, m: seq<Slot>, t: seq<Slot>, i: nat, k: nat, vs: seq<Value>,
        rest: seq<u8>)
    requires GoodDesc(d) && SortedDesc(d) && Typed(d, m) && Fresh(d, t) && i < |m| && IsArray(d.fields[i])
    requires TypedSlot(d.fields[i], m[i]) && d.fields[i].ltype.Packable() && TypedItems(d.fields[i], vs)
    requires k + |vs| <= |m[i].items| <= d.fields[i].arraySize
    requires forall j :: 0 <= j < |vs| ==> m[i].items[k + j] == vs[j]
    requires Payload(d.fields[i], vs, |vs|).Some? && |Payload(d.fields[i], vs, |vs|).value| < TWO32
    ensures var b := LengthPrefixed(Payload(d.fields[i], vs, |vs|).value);
            DecField(d, ArrayState(d, m, t, i, k), i, WT_STRING, b + rest)
              == Some((InArray(d, m, t, i, k + |vs|), |b|))
  {
    var f, items, t0, a := d.fields[i], m[i].items, ItemsOf(t[i]), ArrayState(d, m, t, i, k);
    var to := k + |vs|;
    assert GoodField(f);
    ArrayStateIs(d, m, t, i, k);
    ArrayStateIs(d, m, t, i, to);
    var p := Payload(f, vs, |vs|).value;
    var b := LengthPrefixed(p);
    SliceTaken(f, items, t0, k, vs);
    BlockRoundTrip(p, rest);
    var before, done := MergeItems(f, items, t0, k), MergeItems(f, items, t0, to);
    assert DecPackedBlock(f, b + rest, before, k) == Some(((done, to), |b|));
    PackedFieldIs(d, a, Enter(d, a, i).value, i, b + rest, before, k, done, to, |b|);
    PutInArray(d, m, t, i, k, to);
  }

  lemma {:induction false} SliceTaken(f: Field, items: seq<Value>, t: seq<Value>, k: nat, vs: seq<Value>)
    requires GoodField(f) && f.ltype.Packable() && TypedItems(f, items) && TypedItems(f, vs)
    requires k + |vs| <= |items| <= f.arraySize && forall j :: 0 <= j < |vs| ==> items[k + j] == vs[j]
    ensures Payload(f, vs, |vs|).Some?
    ensures DecPacked(f, Payload(f, vs, |vs|).value, MergeItems(f, items, t, k), k)
         == Some((MergeItems(f, items, t, k + |vs|), k + |vs|))
  {
    var done, to := MergeItems(f, items, t, k + |vs|), k + |vs|;
    SlicePacked(f, items, t, k, vs, |vs|, []);
    assert Payload(f, vs, |vs|).value + [] == Payload(f, vs, |vs|).value;
    assert Unfold(0);
    assert DecPacked(f, [], done, to) == Some((done, to));
  }

  lemma {:induction false} PutInArray(d: MsgDesc, m: seq<Slot>, t: seq<Slot>, i: nat, k: nat, to: nat)
    requires GoodDesc(d) && Typed(d, m) && Fresh(d, t) && i < |m| && IsArray(d.fields[i])
    requires TypedSlot(d.fields[i], m[i]) && k <= to <= |m[i].items|
    ensures var done := MergeItems(d.fields[i], m[i].items, ItemsOf(t[i]), to);
            PutArray(d, InArray(d, m, t, i, k), i, done, to) == InArray(d, m, t, i, to)
  {
    ArrayStateIs(d, m, t, i, k);
    ArrayStateIs(d, m, t, i, to);
    StateShape(d, m, t, i);
    assert FreshSlot(d.fields[i], t[i]);
    var st := StateAfter(d, m, t, i);
    assert st.msg[i := t[i]] == st.msg;
  }

  /** The records ps, which hold the first k elements of the array, from the state before it. */
  lemma {:induction false} PiecesRoundTrip(d: MsgDesc, m: seq<Slot>, t: seq<Slot>, i: nat, ps: seq<Piece>, k: nat,
        rest: seq<u8>)
    requires GoodDesc(d) && SortedDesc(d) && Typed(d, m) && Fresh(d, t) && i < |m| && IsArray(d.fields[i])
    requires TypedSlot(d.fields[i], m[i]) && GoodPieces(d.fields[i], ps) && k <= |m[i].items| <= d.fields[i].arraySize
    requires AllHeld(ps) == m[i].items[..k]
    requires PiecesBytes(d.fields[i], ps).Some? && |PiecesBytes(d.fields[i], ps).value| < TWO32
    ensures Comes(d, PiecesBytes(d.fields[i], ps).value + rest, StateAfter(d, m, t, i),
                  rest, if ps == [] then StateAfter(d, m, t, i) else InArray(d, m, t, i, k))
    decreases |ps|
  {
    var f, items := d.fields[i], m[i].items;
    if ps == [] {
      assert PiecesBytes(f, ps).value + rest == rest;
    } else {
      var before, p := ps[..|ps| - 1], ps[|ps| - 1];
      var e := LastBytes(f, ps, before, p, rest);
      var j := LastPiece(items, ps, k, before, p);
      PiecesRoundTrip(d, m, t, i, before, j, e + rest);
      var st := if before == [] then StateAfter(d, m, t, i) else InArray(d, m, t, i, j);
      PieceRoundTrip(d, m, t, i, j, p, st, rest);
      ComesOn(d, PiecesBytes(f, ps).value + rest, StateAfter(d, m, t, i), e + rest, st, rest, InArray(d, m, t, i, k));
    }
  }

  lemma LastBytes(f: Field, ps: seq<Piece>, before: seq<Piece>, p: Piece, rest: seq<u8>) returns (e: seq<u8>)
    requires GoodPieces(f, ps) && PiecesBytes(f, ps).Some? && ps != []
    requires before == ps[..|ps| - 1] && p == ps[|ps| - 1]
    ensures GoodPieces(f, before) && GoodPiece(f, p) && PieceBytes(f, p) == Some(e) && PiecesBytes(f, before).Some?
    ensures PiecesBytes(f, ps).value == PiecesBytes(f, before).value + e
    ensures PiecesBytes(f, ps).value + rest == PiecesBytes(f, before).value + (e + rest)
  {
    e := PieceBytes(f, p).value;
    JoinThree(PiecesBytes(f, before).value, e, rest);
  }

  lemma LastPiece(items: seq<Value>, ps: seq<Piece>, k: nat, before: seq<Piece>, p: Piece) returns (j: nat)
    requires ps != [] && k <= |items| && AllHeld(ps) == items[..k]
    requires before == ps[..|ps| - 1] && p == ps[|ps| - 1]
    ensures j == |AllHeld(before)| && j + |Held(p)| == k && AllHeld(before) == items[..j] && (before == [] ==> j == 0)
    ensures forall q :: 0 <= q < |Held(p)| ==> items[j + q] == Held(p)[q]
  {
    j := |AllHeld(before)|;
    assert AllHeld(before) == AllHeld(ps)[..j] == items[..k][..j] == items[..j];
    forall q | 0 <= q < |Held(p)| ensures items[j + q] == Held(p)[q] {
      assert items[j + q] == items[..k][j + q] == AllHeld(ps)[j + q];
    }
  }

  /** Field number i of a message: an array in any records, any other field as the encoder writes it. */
  function FieldBytes(d: MsgDesc, f: Field, s: Slot, ps: seq<Piece>): Option<seq<u8>>
    requires TypedSlot(f, s) && GoodPieces(f, ps)
  {
    if IsArray(f) then PiecesBytes(f, ps) else EncSlot(d, f, s)
  }

  /** A choice of records for field f that together hold its elements, no more than there is room for. */
  predicate Splits(f: Field, s: Slot, ps: seq<Piece>)
    requires TypedSlot(f, s)
  {
    GoodPieces(f, ps) && (IsArray(f) ==> AllHeld(ps) == s.items && |s.items| <= f.arraySize)
  }

  predicate AllSplit(d: MsgDesc, m: seq<Slot>, splits: seq<seq<Piece>>)
    requires Typed(d, m)
  {
    |splits| == |m| && forall i :: 0 <= i < |m| ==> Splits(d.fields[i], m[i], splits[i])
  }

  /** The first k fields. */
  function BytesUpTo(d: MsgDesc, m: seq<Slot>, splits: seq<seq<Piece>>, k: nat): Option<seq<u8>>
    requires Typed(d, m) && AllSplit(d, m, splits) && k <= |m|
  {
    if k == 0 then Some([])
    else
      assert Splits(d.fields[k - 1], m[k - 1], splits[k - 1]);
      Cat(BytesUpTo(d, m, splits, k - 1), FieldBytes(d, d.fields[k - 1], m[k - 1], splits[k - 1]))
  }

  lemma {:induction false} FieldSplit(d: MsgDesc, m: seq<Slot>, t: seq<Slot>, i: nat, ps: seq<Piece>, rest: seq<u8>)
    requires GoodDesc(d) && SortedDesc(d) && Typed(d, m) && Fresh(d, t) && i < |m| && TypedSlot(d.fields[i], m[i])
    requires Splits(d.fields[i], m[i], ps)
    requires var e := FieldBytes(d, d.fields[i], m[i], ps); e.Some? && |e.value| < TWO32
    ensures DecLoop(d, FieldBytes(d, d.fields[i], m[i], ps).value + rest, StateAfter(d, m, t, i))
         == DecLoop(d, rest, StateAfter(d, m, t, i + 1))
  {
    if !IsArray(d.fields[i]) {
      FieldRoundTrip(d, m, t, i, rest);
    } else {
      var items := m[i].items;
      var n := |items|;
      assert items[..n] == items;
      PiecesRoundTrip(d, m, t, i, ps, n, rest);
      assert Unfold(0);
      if n == 0 { EmptyArray(d, m, t, i, rest); } else { FullArray(d, m, t, i, n); }
    }
  }

  lemma {:induction false} FullArray(d: MsgDesc, m: seq<Slot>, t: seq<Slot>, i: nat, n: nat)
    requires Typed(d, m) && Fresh(d, t) && i < |m| && IsArray(d.fields[i]) && TypedSlot(d.fields[i], m[i])
    requires n == |m[i].items| > 0
    ensures InArray(d, m, t, i, n) == StateAfter(d, m, t, i + 1)
  {
    ArrayStateIs(d, m, t, i, n);
  }

  lemma {:induction false} EmptyArray(d: MsgDesc, m: seq<Slot>, t: seq<Slot>, i: nat, rest: seq<u8>)
    requires GoodDesc(d) && Typed(d, m) && Fresh(d, t) && i < |m| && IsArray(d.fields[i])
    requires TypedSlot(d.fields[i], m[i]) && m[i].items == []
    ensures InArray(d, m, t, i, 0) == StateAfter(d, m, t, i) == StateAfter(d, m, t, i + 1)
  {
    assert GoodField(d.fields[i]);
    ArrayStateIs(d, m, t, i, 0);
    NothingWritten(d, m, t, i, rest);
  }

  lemma {:induction false} SplitUpTo(d: MsgDesc, m: seq<Slot>, splits: seq<seq<Piece>>, t: seq<Slot>, k: nat,
        rest: seq<u8>)
    requires GoodDesc(d) && SortedDesc(d) && Typed(d, m) && AllSplit(d, m, splits) && Fresh(d, t) && k <= |m|
    requires var e := BytesUpTo(d, m, splits, k); e.Some? && |e.value| < TWO32
    ensures DecLoop(d, BytesUpTo(d, m, splits, k).value + rest, Start(t)) == DecLoop(d, rest, StateAfter(d, m, t, k))
    decreases k
  {
    if k == 0 {
      assert BytesUpTo(d, m, splits, 0).value + rest == rest;
    } else {
      assert Splits(d.fields[k - 1], m[k - 1], splits[k - 1]);
      var e := FieldBytes(d, d.fields[k - 1], m[k - 1], splits[k - 1]).value;
      SplitUpTo(d, m, splits, t, k - 1, e + rest);
      JoinThree(BytesUpTo(d, m, splits, k - 1).value, e, rest);
      FieldSplit(d, m, t, k - 1, splits[k - 1], rest);
    }
  }

  /** However a writer splits the elements of each array, packable or not, into packed blocks and single elements,
      decoding gives the message back. */
  lemma {:induction false} AnySplitRoundTrip(d: MsgDesc, m: seq<Slot>, splits: seq<seq<Piece>>, dest: seq<Slot>)
    requires GoodDesc(d) && SortedDesc(d) && Typed(d, m) && Typed(d, dest) && AllSplit(d, m, splits)
    requires var e := BytesUpTo(d, m, splits, |m|); e.Some? && |e.value| < TWO32
    ensures var r := Decode(d, BytesUpTo(d, m, splits, |m|).value, dest); r.Some? && SameMsg(d, m, r.value)
    ensures EncMsg(d, m).Some? && |EncMsg(d, m).value| < TWO32 ==>
              Decode(d, BytesUpTo(d, m, splits, |m|).value, dest) == Decode(d, EncMsg(d, m).value, dest)
  {
    var t, n, b := InitMsg(d, dest), |m|, BytesUpTo(d, m, splits, |m|).value;
    InitFresh(d, dest);
    SplitUpTo(d, m, splits, t, n, []);
    assert b + [] == b;
    StateShape(d, m, t, n);
    assert StateAfter(d, m, t, n).msg == MergeMsg(d, m, t);
    MergeSame(d, m, t);
    if EncMsg(d, m).Some? && |EncMsg(d, m).value| < TWO32 { MsgRoundTrip(d, m, t); }
  }
}
