/** When a message is complete: every required field has occurred, and every array of fixed count that was begun has
    been read to its end. */
module PbComplete {
  import opened Words
  import opened PbVarint
  import opened PbStream
  import opened PbModel
  import opened PbEncode
  import opened PbDecodeSpec
  import opened PbRoundTrip
  import opened PbArrays
  import opened PbOmission

  // ---- The decoder takes whole fields ---------------------------------------------------------------------

  /** What decoding a value takes is what its wire type says. */
  lemma {:induction false} ValueExtentIs(f: Field, s: seq<u8>, start: Value)
    requires DecValue(f, s, start).Some?
    ensures FieldExtent(WireType(f.ltype), s) == Some(DecValue(f, s, start).value.1)
  {}

  lemma {:induction false} FieldExtentIs(d: MsgDesc, st: DState, i: nat, wt: nat, s: seq<u8>)
    requires |st.msg| == |d.fields| && i < |d.fields| && DecField(d, st, i, wt, s).Some?
    ensures FieldExtent(wt, s) == Some(DecField(d, st, i, wt, s).value.1)
  {
    var f, st1 := d.fields[i], Enter(d, st, i).value;
    if IsArray(f) {
      assert DecArray(d, st1, i, wt, s).Some?;
      if wt == WT_STRING && f.ltype.Packable() {
        assert DecPackedBlock(f, s, ItemsOf(st1.msg[i]), Count(d, st1, i)).Some?;
      } else {
        ValueExtentIs(f, s, ItemStart(f, ItemsOf(st1.msg[i]), Count(d, st1, i)));
      }
    } else {
      assert DecSingle(d, st1, i, wt, s).Some?;
      ValueExtentIs(f, s, FieldStart(f, st1.msg[i]));
    }
  }

  lemma {:induction false} StepIsFirst(d: MsgDesc, s: seq<u8>, st: DState) returns (number: nat)
    requires |st.msg| == |d.fields| && Step(d, s, st).Some?
    ensures ReadTag(s).Some? && ReadTag(s).value.0.number == number > 0
    ensures First(s) == Some((number, Step(d, s, st).value.1))
  {
    var (tag, n) := ReadTag(s).value;
    number := tag.number;
    var rest := s[n..];
    assert AfterTag(d, st, tag, rest).Some?;
    match FindFrom(d, tag.number, 0)
    case None =>
    case Some(i) => FieldExtentIs(d, st, i, tag.wireType, rest);
  }

  // ---- Required fields --------------------------------------------------------------------------------------

  /** One of the required fields that the decoder keeps account of. */
  predicate Counted(d: MsgDesc, i: nat)
    requires i < |d.fields|
  {
    d.fields[i].htype.Required? && RequiredBefore(d, i) < 64
  }

  /** Each of them is among the field numbers of the input. */
  predicate NoneMissing(d: MsgDesc, tags: seq<nat>) {
    forall i {:trigger Counted(d, i)} :: 0 <= i < |d.fields| && Counted(d, i) ==> d.fields[i].tag in tags
  }

  /** Required fields are numbered in order. */
  lemma {:induction false} RequiredOrder(d: MsgDesc, i: nat, j: nat)
    requires i < j <= |d.fields| && d.fields[i].htype.Required?
    ensures RequiredBefore(d, i) < RequiredBefore(d, j)
    decreases j
  {
    if j > i + 1 { RequiredOrder(d, i, j - 1); }
  }

  lemma {:induction false} RequiredAt(d: MsgDesc, r: nat, k: nat) returns (i: nat)
    requires k <= |d.fields| && r < RequiredBefore(d, k)
    ensures i < k && d.fields[i].htype.Required? && RequiredBefore(d, i) == r
    decreases k
  {
    if d.fields[k - 1].htype.Required? && RequiredBefore(d, k - 1) == r { i := k - 1; }
    else { i := RequiredAt(d, r, k - 1); }
  }

  /** What one record adds to the required fields met. */
  lemma {:induction false} StepSees(d: MsgDesc, s: seq<u8>, st: DState, i: nat)
    requires SortedDesc(d) && |st.msg| == |d.fields| && Step(d, s, st).Some? && i < |d.fields| && Counted(d, i)
    ensures ReadTag(s).Some?
    ensures RequiredBefore(d, i) in Step(d, s, st).value.0.seen
       <==> RequiredBefore(d, i) in st.seen || ReadTag(s).value.0.number == d.fields[i].tag
  {
    var (tag, n) := ReadTag(s).value;
    var rest := s[n..];
    assert AfterTag(d, st, tag, rest).Some?;
    if FindFrom(d, tag.number, 0).Some? {
      var j := FindFrom(d, tag.number, 0).value;
      FieldSees(d, st, j, tag.wireType, rest);
      if j < i { RequiredIf(d, j, i); } else if i < j { RequiredIf(d, i, j); }
    }
  }

  lemma RequiredIf(d: MsgDesc, i: nat, j: nat)
    requires SortedDesc(d) && i < j < |d.fields|
    ensures d.fields[i].tag != d.fields[j].tag
    ensures d.fields[i].htype.Required? ==> RequiredBefore(d, i) < RequiredBefore(d, j)
  {
    if d.fields[i].htype.Required? { RequiredOrder(d, i, j); }
  }

  lemma FieldSees(d: MsgDesc, st: DState, j: nat, wt: nat, s: seq<u8>)
    requires |st.msg| == |d.fields| && j < |d.fields| && DecField(d, st, j, wt, s).Some?
    ensures DecField(d, st, j, wt, s).value.0.seen
         == if Counted(d, j) then st.seen + {RequiredBefore(d, j)} else st.seen
  {}

  lemma {:induction false} LoopSees(d: MsgDesc, s: seq<u8>, st: DState, i: nat)
    requires SortedDesc(d) && |st.msg| == |d.fields| && DecLoop(d, s, st).Some? && i < |d.fields| && Counted(d, i)
    ensures Tags(s).Some?
    ensures RequiredBefore(d, i) in DecLoop(d, s, st).value.seen
       <==> RequiredBefore(d, i) in st.seen || d.fields[i].tag in Tags(s).value
    decreases |s|
  {
    if s != [] {
      var (st', n) := Step(d, s, st).value;
      var number := StepIsFirst(d, s, st);
      StepSees(d, s, st, i);
      LoopSees(d, s[n..], st', i);
      assert Tags(s).value == [number] + Tags(s[n..]).value;
    }
  }

  lemma {:induction false} LoopTags(d: MsgDesc, s: seq<u8>, st: DState)
    requires |st.msg| == |d.fields| && DecLoop(d, s, st).Some?
    ensures Tags(s).Some?
    decreases |s|
  {
    if s != [] {
      var (st', n) := Step(d, s, st).value;
      var number := StepIsFirst(d, s, st);
      LoopTags(d, s[n..], st');
    }
  }

  /** An input that the loop gets through is accepted exactly when no required field of the first 64 is missing from it
      and the last array of fixed count is complete. */
  lemma {:induction false} AcceptedExactly(d: MsgDesc, s: seq<u8>, m: seq<Slot>)
    requires SortedDesc(d) && |m| == |d.fields| && DecLoop(d, s, Start(m)).Some?
    ensures Tags(s).Some?
    ensures DecMsg(d, s, m).Some? <==> NoneMissing(d, Tags(s).value) && CountComplete(d, DecLoop(d, s, Start(m)).value)
  {
    var st := DecLoop(d, s, Start(m)).value;
    LoopTags(d, s, Start(m));
    forall i: nat | i < |d.fields| && Counted(d, i)
      ensures RequiredBefore(d, i) in st.seen <==> d.fields[i].tag in Tags(s).value
    {
      LoopSees(d, s, Start(m), i);
    }
    if NoneMissing(d, Tags(s).value) {
      forall r: nat | r < RequiredBefore(d, |d.fields|) && r < PB_MAX_REQUIRED_FIELDS ensures r in st.seen {
        var i := RequiredAt(d, r, |d.fields|);
        assert Counted(d, i);
      }
    }
    if AllRequired(d, st.seen) {
      forall i: nat | i < |d.fields| && Counted(d, i) ensures d.fields[i].tag in Tags(s).value {
        RequiredOrder(d, i, |d.fields|);
        assert RequiredBefore(d, i) in st.seen;
      }
    }
  }

  // ---- Arrays of fixed count -----------------------------------------------------------------------------------

  /** An array of fixed count of which some records have come, but not all elements, makes decoding fail, whether the
      input ends there or another such array begins. */
  lemma {:induction false} IncompleteFails(d: MsgDesc, m: seq<Slot>, t: seq<Slot>, i: nat, ps: seq<Piece>, k: nat)
    requires GoodDesc(d) && SortedDesc(d) && Typed(d, m) && Fresh(d, t) && i < |m| && d.fields[i].htype.FixArray?
    requires TypedSlot(d.fields[i], m[i]) && GoodPieces(d.fields[i], ps) && ps != []
    requires k < d.fields[i].arraySize && AllHeld(ps) == m[i].items[..k]
    requires PiecesBytes(d.fields[i], ps).Some? && |PiecesBytes(d.fields[i], ps).value| < TWO32
    ensures Finish(d, DecLoop(d, PiecesBytes(d.fields[i], ps).value, StateAfter(d, m, t, i))) == None
    ensures forall j: nat, wt: nat, more: seq<u8> | j < |d.fields| && j != i && d.fields[j].htype.FixArray? && wt < 8 ::
              DecLoop(d, PiecesBytes(d.fields[i], ps).value + (TagBytes(Tag(d.fields[j].tag, wt)) + more),
                      StateAfter(d, m, t, i)) == None
  {
    var b := PiecesBytes(d.fields[i], ps).value;
    var st := InArray(d, m, t, i, k);
    PiecesRoundTrip(d, m, t, i, ps, k, []);
    assert b + [] == b;
    assert Unfold(0);
    InArrayIs(d, m, t, i, k);
    forall j: nat, wt: nat, more: seq<u8> | j < |d.fields| && j != i && d.fields[j].htype.FixArray? && wt < 8
      ensures DecLoop(d, b + (TagBytes(Tag(d.fields[j].tag, wt)) + more), StateAfter(d, m, t, i)) == None
    {
      PiecesRoundTrip(d, m, t, i, ps, k, TagBytes(Tag(d.fields[j].tag, wt)) + more);
      assert DecField(d, st, j, wt, [] + more) == None;
      RecordFails(d, st, j, wt, [], more);
      assert TagBytes(Tag(d.fields[j].tag, wt)) + [] + more == TagBytes(Tag(d.fields[j].tag, wt)) + more;
    }
  }

  lemma InArrayIs(d: MsgDesc, m: seq<Slot>, t: seq<Slot>, i: nat, k: nat)
    requires Typed(d, m) && Fresh(d, t) && i < |m| && d.fields[i].htype.FixArray? && TypedSlot(d.fields[i], m[i])
    requires k <= |m[i].items|
    ensures InArray(d, m, t, i, k).fc == Some(i) && InArray(d, m, t, i, k).fcSize == k
  {
    ArrayStateIs(d, m, t, i, k);
  }
}
