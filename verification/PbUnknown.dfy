/** Decoding depends only on the bytes it consumes, so fields that are not in the descriptor can be
    inserted anywhere between fields; and it never stores more than the structure has room for. */
module PbUnknown {
  import opened Words
  import opened PbVarint
  import opened PbStream
  import opened PbModel
  import opened PbDecodeSpec

  // ---- Locality -------------------------------------------------------------------------------------

  lemma {:induction false} BlockExtends(s: seq<u8>, more: seq<u8>)
    requires ReadBlock(s).Some?
    ensures ReadBlock(s + more) == ReadBlock(s)
  {
    VarintExtends(s, more);
    var (size, n) := ReadVarint32(s).value;
    assert (s + more)[n..n + size] == s[n..n + size];
  }

  lemma {:induction false} FixedExtends(s: seq<u8>, w: nat, more: seq<u8>)
    requires ReadFixed(s, w).Some?
    ensures ReadFixed(s + more, w) == ReadFixed(s, w)
  {
    assert (s + more)[..w] == s[..w];
  }

  lemma FixedBytesExtends(f: Field, s: seq<u8>, more: seq<u8>)
    requires DecFixedBytes(f, s).Some?
    ensures DecFixedBytes(f, s + more) == DecFixedBytes(f, s)
  {
    VarintExtends(s, more);
    var (size, n) := ReadVarint32(s).value;
    if 0 < size <= |s| - n { assert (s + more)[n..n + size] == s[n..n + size]; }
  }

  lemma VarintValueExtends(f: Field, s: seq<u8>, more: seq<u8>)
    requires DecVarintValue(f, s).Some?
    ensures DecVarintValue(f, s + more) == DecVarintValue(f, s)
  {
    VarintExtends(s, more);
  }

  lemma {:induction false} ValueExtends(f: Field, s: seq<u8>, start: Value, more: seq<u8>)
    requires DecValue(f, s, start).Some?
    ensures DecValue(f, s + more, start) == DecValue(f, s, start)
  {
    match f.ltype {
      case LBool => VarintExtends(s, more);
      case LVarint | LUVarint | LSVarint => VarintValueExtends(f, s, more);
      case LFixed32 => FixedExtends(s, 4, more);
      case LFixed64 => FixedExtends(s, 8, more);
      case LFixedBytes => FixedBytesExtends(f, s, more);
      case LBytes | LString | LSubmsg(_) => BlockExtends(s, more);
    }
  }

  lemma PackedBlockExtends(f: Field, s: seq<u8>, items: seq<Value>, c: nat, more: seq<u8>)
    requires DecPackedBlock(f, s, items, c).Some?
    ensures DecPackedBlock(f, s + more, items, c) == DecPackedBlock(f, s, items, c)
  {
    BlockExtends(s, more);
  }

  lemma {:induction false} FieldExtends(d: MsgDesc, st: DState, i: nat, wt: nat, s: seq<u8>, more: seq<u8>)
    requires |st.msg| == |d.fields| && i < |d.fields| && DecField(d, st, i, wt, s).Some?
    ensures DecField(d, st, i, wt, s + more) == DecField(d, st, i, wt, s)
  {
    var f, st1 := d.fields[i], Enter(d, st, i).value;
    if !IsArray(f) {
      ValueExtends(f, s, FieldStart(f, st1.msg[i]), more);
    } else if wt == WT_STRING && f.ltype.Packable() {
      PackedBlockExtends(f, s, ItemsOf(st1.msg[i]), Count(d, st1, i), more);
    } else {
      ValueExtends(f, s, ItemStart(f, ItemsOf(st1.msg[i]), Count(d, st1, i)), more);
    }
  }

  lemma {:induction false} ExtentOfFieldExtends(wt: nat, s: seq<u8>, more: seq<u8>)
    requires FieldExtent(wt, s).Some?
    ensures FieldExtent(wt, s + more) == FieldExtent(wt, s)
  {
    if wt == WT_VARINT { ExtentExtends(s, more); }
    if wt == WT_STRING { VarintExtends(s, more); }
  }

  lemma {:induction false} StepExtends(d: MsgDesc, s: seq<u8>, st: DState, more: seq<u8>)
    requires |st.msg| == |d.fields| && Step(d, s, st).Some?
    ensures Step(d, s + more, st) == Step(d, s, st)
  {
    var (tag, n) := ReadTag(s).value;
    VarintExtends(s, more);
    assert (s + more)[n..] == s[n..] + more;
    AfterTagExtends(d, st, tag, s[n..], more);
    StepBy(d, s, st, tag, n, s[n..]);
    StepBy(d, s + more, st, tag, n, s[n..] + more);
  }

  lemma {:induction false} AfterTagExtends(d: MsgDesc, st: DState, tag: Tag, s: seq<u8>, more: seq<u8>)
    requires |st.msg| == |d.fields| && AfterTag(d, st, tag, s).Some?
    ensures AfterTag(d, st, tag, s + more) == AfterTag(d, st, tag, s)
  {
    match FindFrom(d, tag.number, 0)
    case None => ExtentOfFieldExtends(tag.wireType, s, more);
    case Some(i) => FieldExtends(d, st, i, tag.wireType, s, more);
  }

  /** A run of whole fields leads the loop to a state from which it goes on with what follows. */
  lemma {:induction false} LoopSplits(d: MsgDesc, pre: seq<u8>, post: seq<u8>, st: DState)
    requires |st.msg| == |d.fields| && DecLoop(d, pre, st).Some?
    ensures DecLoop(d, pre + post, st) == DecLoop(d, post, DecLoop(d, pre, st).value)
    decreases |pre|
  {
    if pre == [] {
      assert pre + post == post;
    } else {
      var (st', n) := Step(d, pre, st).value;
      StepExtends(d, pre, st, post);
      assert (pre + post)[n..] == pre[n..] + post;
      LoopSplits(d, pre[n..], post, st');
    }
  }

  // ---- Unknown fields ---------------------------------------------------------------------------------

  /** One well-formed field whose number the descriptor does not have. */
  predicate IsUnknown(d: MsgDesc, u: seq<u8>) {
    match ReadTag(u)
    case None => false
    case Some((tag, n)) =>
      && tag.number != 0 && (forall j :: 0 <= j < |d.fields| ==> d.fields[j].tag != tag.number)
      && FieldExtent(tag.wireType, u[n..]) == Some(|u| - n)
  }

  lemma {:induction false} UnknownIsSkipped(d: MsgDesc, u: seq<u8>, st: DState)
    requires |st.msg| == |d.fields| && IsUnknown(d, u)
    ensures DecLoop(d, u, st) == Some(st)
  {
    assert Step(d, u, st) == Some((st, |u|));
    assert u[|u|..] == [];
  }

  /** Inserting an unknown field between fields, be it inside a run of fixed-array elements, changes
      neither whether decoding succeeds nor what it gives. */
  lemma {:induction false} UnknownIsTransparent(d: MsgDesc, pre: seq<u8>, u: seq<u8>, post: seq<u8>, m: seq<Slot>)
    requires |m| == |d.fields| && DecLoop(d, pre, Start(m)).Some? && IsUnknown(d, u)
    ensures DecMsg(d, pre + u + post, m) == DecMsg(d, pre + post, m)
  {
    var st := DecLoop(d, pre, Start(m)).value;
    LoopSplits(d, pre, u + post, Start(m));
    assert pre + u + post == pre + (u + post);
    UnknownIsSkipped(d, u, st);
    LoopSplits(d, u, post, st);
    LoopSplits(d, pre, post, Start(m));
  }

  // ---- Storage bounds -----------------------------------------------------------------------------------

  /** The value fits its memory: integers their width and sign, strings with room for their terminator, bytes within
      their buffer. */
  predicate FitsValue(f: Field, v: Value)
    decreases f, 0
  {
    match f.ltype
    case LBytes => v.VBytes? && |v.b| + BYTES_HEADER <= f.dataSize
    case LString => v.VBytes? && |v.b| + 1 <= f.dataSize && forall i :: 0 <= i < |v.b| ==> v.b[i] != 0
    case LFixedBytes => v.VBytes? && |v.b| == f.dataSize
    case LSubmsg(sub) => v.VMsg? && Fits(sub, v.slots)
    case LBool => v.VInt? && 0 <= v.n <= 1
    case LVarint | LSVarint => v.VInt? && -(IntRange(f.dataSize) / 2) <= v.n < IntRange(f.dataSize) / 2
    case LUVarint => v.VInt? && 0 <= v.n < IntRange(f.dataSize)
    case LFixed32 => v.VInt? && 0 <= v.n < TWO32
    case LFixed64 => v.VInt? && 0 <= v.n < TWO64
  }

  /** No array holds more elements than the structure has room for. */
  predicate FitsSlot(f: Field, s: Slot)
    decreases f, 1
  {
    match f.htype
    case Required | Singular => s.Single? && FitsValue(f, s.v)
    case Optional => s.Opt? && FitsValue(f, s.v)
    case Repeated => s.Rep? && |s.items| <= f.arraySize && forall i :: 0 <= i < |s.items| ==> FitsValue(f, s.items[i])
    case FixArray => s.Fixed? && |s.items| == f.arraySize && forall i :: 0 <= i < |s.items| ==> FitsValue(f, s.items[i])
    case Oneof(_) => s.Member? && FitsValue(f, s.v)
  }

  /** A structure with every field within its memory and at most one member chosen in every union. */
  predicate Fits(d: MsgDesc, m: seq<Slot>)
    decreases d, 2
  {
    |m| == |d.fields| && OneofsOk(d, m) && forall i :: 0 <= i < |m| ==> FitsSlot(d.fields[i], m[i])
  }

  /** The generator's default values fit. */
  predicate DefaultsFit(d: MsgDesc) {
    forall i :: 0 <= i < |d.fields| ==> DefaultFits(d.fields[i])
  }

  predicate DefaultFits(f: Field) {
    match f.ltype
    case LSubmsg(sub) => DefaultsFit(sub)
    case LBytes => f.dataSize >= BYTES_HEADER && FitsValue(f, f.dflt)
    case LString => f.dataSize >= 1 && FitsValue(f, f.dflt)
    case _ => FitsValue(f, f.dflt)
  }

  lemma {:induction false} ZeroFits(f: Field)
    requires DefaultFits(f)
    ensures FitsValue(f, ZeroValue(f))
    decreases f, 0
  {
    if f.ltype.LSubmsg? {
      var d := f.ltype.sub;
      forall i | 0 <= i < |d.fields| ensures FitsSlot(d.fields[i], ZeroSlot(d.fields[i])) { ZeroFits(d.fields[i]); }
    }
  }

  lemma {:induction false} InitFits(d: MsgDesc, m: seq<Slot>)
    requires DefaultsFit(d) && Fits(d, m)
    ensures Fits(d, InitMsg(d, m))
    decreases d, 1
  {
    forall i | 0 <= i < |m| ensures FitsSlot(d.fields[i], InitSlot(d.fields[i], m[i])) {
      assert FitsSlot(d.fields[i], m[i]) && DefaultFits(d.fields[i]);
      if !IsArray(d.fields[i]) { InitValueFits(d.fields[i], m[i].v); }
    }
  }

  lemma {:induction false} InitValueFits(f: Field, v: Value)
    requires DefaultFits(f) && FitsValue(f, v)
    ensures FitsValue(f, InitValue(f, v))
    decreases f, 0
  {
    if f.ltype.LSubmsg? {
      ZeroFits(f);
      InitFits(f.ltype.sub, v.slots);
    }
  }

  lemma {:induction false} CStringSafe(b: seq<u8>)
    ensures |CString(b)| <= |b| && forall i :: 0 <= i < |CString(b)| ==> CString(b)[i] != 0
  {
    if b != [] && b[0] != 0 { CStringSafe(b[1..]); }
  }

  lemma {:induction false} LeValueBound(b: seq<u8>)
    ensures LeValue(b) < Pow2(8 * |b|)
  {
    if b != [] {
      LeValueBound(b[1..]);
      Pow2Byte(8 * (|b| - 1));
    }
  }

  lemma FixedFits(s: seq<u8>, w: nat)
    requires w == 4 || w == 8
    ensures ReadFixed(s, w).Some? ==> ReadFixed(s, w).value.0 < if w == 4 then TWO32 else TWO64
  {
    if |s| >= w {
      LeValueBound(s[..w]);
      Pow2Constants();
    }
  }

  lemma {:induction false} ValueFits(f: Field, s: seq<u8>, start: Value)
    requires DefaultFits(f) && FitsValue(f, start) && DecValue(f, s, start).Some?
    ensures FitsValue(f, DecValue(f, s, start).value.0)
    decreases f, 0
  {
    match f.ltype {
      case LFixed32 => FixedFits(s, 4);
      case LFixed64 => FixedFits(s, 8);
      case LString => CStringSafe(ReadBlock(s).value.0);
      case LSubmsg(sub) => MsgFits(sub, ReadBlock(s).value.0, start.slots);
      case _ =>
    }
  }

  /** An array with c elements so far. */
  predicate ArrayFits(f: Field, items: seq<Value>, c: nat) {
    && IsArray(f) && c <= f.arraySize && |items| == (if f.htype.Repeated? then c else f.arraySize)
    && forall i :: 0 <= i < |items| ==> FitsValue(f, items[i])
  }

  lemma {:induction false} StartFits(f: Field, items: seq<Value>, c: nat)
    requires DefaultFits(f) && ArrayFits(f, items, c)
    ensures FitsValue(f, ItemStart(f, items, c))
  {
    ZeroFits(f);
    if f.ltype.LSubmsg? {
      var v := if c < |items| then items[c] else ZeroValue(f);
      InitFits(f.ltype.sub, v.slots);
    }
  }

  lemma {:induction false} PackedFits(f: Field, s: seq<u8>, items: seq<Value>, c: nat)
    requires DefaultFits(f) && ArrayFits(f, items, c) && DecPacked(f, s, items, c).Some? && f.ltype.Packable()
    ensures ArrayFits(f, DecPacked(f, s, items, c).value.0, DecPacked(f, s, items, c).value.1)
    decreases f, 1, |s|
  {
    if |s| > 0 {
      StartFits(f, items, c);
      ValueFits(f, s, ItemStart(f, items, c));
      var (v, n) := DecValue(f, s, ItemStart(f, items, c)).value;
      PackedFits(f, s[n..], PutItem(items, c, v), c + 1);
    }
  }

  predicate StateFits(d: MsgDesc, st: DState) {
    Fits(d, st.msg) && (st.fc.Some? ==> st.fc.value < |d.fields| && st.fcSize <= d.fields[st.fc.value].arraySize)
  }

  lemma {:induction false} PutSingleFits(d: MsgDesc, m: seq<Slot>, i: nat, v: Value)
    requires Fits(d, m) && i < |m| && !IsArray(d.fields[i]) && FitsValue(d.fields[i], v)
    ensures Fits(d, PutSingle(d, m, i, v))
  {
    var r := PutSingle(d, m, i, v);
    forall j | 0 <= j < |m| ensures FitsSlot(d.fields[j], r[j]) { assert FitsSlot(d.fields[j], m[j]); }
  }

  lemma {:induction false} FieldFits(d: MsgDesc, st: DState, i: nat, wt: nat, s: seq<u8>)
    requires DefaultsFit(d) && StateFits(d, st) && i < |d.fields| && DecField(d, st, i, wt, s).Some?
    ensures StateFits(d, DecField(d, st, i, wt, s).value.0)
    decreases d, 0, 1
  {
    var st1 := Enter(d, st, i).value;
    if IsArray(d.fields[i]) { ArrayFieldFits(d, st1, i, wt, s); } else { SingleFieldFits(d, st1, i, wt, s); }
  }

  lemma {:induction false} ArrayFieldFits(d: MsgDesc, st: DState, i: nat, wt: nat, s: seq<u8>)
    requires DefaultsFit(d) && StateFits(d, st) && i < |d.fields| && IsArray(d.fields[i])
    requires d.fields[i].htype.FixArray? ==> st.fc == Some(i)
    requires DecArray(d, st, i, wt, s).Some?
    ensures StateFits(d, DecArray(d, st, i, wt, s).value.0)
    decreases d, 0, 0
  {
    var f, items, c := d.fields[i], ItemsOf(st.msg[i]), Count(d, st, i);
    assert f < d && DefaultFits(f) && FitsSlot(f, st.msg[i]);
    assert ArrayFits(f, items, c);
    if wt == WT_STRING && f.ltype.Packable() {
      assert DecPackedBlock(f, s, items, c).Some?;
      PackedFits(f, ReadBlock(s).value.0, items, c);
    } else {
      StartFits(f, items, c);
      ValueFits(f, s, ItemStart(f, items, c));
    }
  }

  lemma {:induction false} SingleFieldFits(d: MsgDesc, st: DState, i: nat, wt: nat, s: seq<u8>)
    requires DefaultsFit(d) && StateFits(d, st) && i < |d.fields| && !IsArray(d.fields[i])
    requires DecSingle(d, st, i, wt, s).Some?
    ensures StateFits(d, DecSingle(d, st, i, wt, s).value.0)
    decreases d, 0, 0
  {
    var f := d.fields[i];
    assert f < d && DefaultFits(f) && FitsSlot(f, st.msg[i]);
    if f.htype.Oneof? && f.ltype.LSubmsg? && !IsSet(st.msg[i]) { ZeroFits(f); InitValueFits(f, ZeroValue(f)); }
    ValueFits(f, s, FieldStart(f, st.msg[i]));
    PutSingleFits(d, st.msg, i, DecValue(f, s, FieldStart(f, st.msg[i])).value.0);
  }

  lemma {:induction false} LoopFits(d: MsgDesc, s: seq<u8>, st: DState)
    requires DefaultsFit(d) && StateFits(d, st) && DecLoop(d, s, st).Some?
    ensures StateFits(d, DecLoop(d, s, st).value)
    decreases d, 1, |s|
  {
    if |s| > 0 {
      StepFits(d, s, st);
      var (st', k) := Step(d, s, st).value;
      LoopFits(d, s[k..], st');
    }
  }

  lemma {:induction false} StepFits(d: MsgDesc, s: seq<u8>, st: DState)
    requires DefaultsFit(d) && StateFits(d, st) && Step(d, s, st).Some?
    ensures StateFits(d, Step(d, s, st).value.0)
    decreases d, 1, 0
  {
    var (tag, n) := ReadTag(s).value;
    assert AfterTag(d, st, tag, s[n..]).Some?;
    match FindFrom(d, tag.number, 0)
    case None =>
    case Some(i) => FieldFits(d, st, i, tag.wireType, s[n..]);
  }

  lemma {:induction false} MsgFits(d: MsgDesc, s: seq<u8>, m: seq<Slot>)
    requires DefaultsFit(d) && Fits(d, m) && DecMsg(d, s, m).Some?
    ensures Fits(d, DecMsg(d, s, m).value)
    decreases d, 2
  {
    LoopFits(d, s, Start(m));
  }

  /** Whatever bytes arrive, a structure that decoding fills stays within its memory. */
  lemma {:induction false} DecodeStaysInBounds(d: MsgDesc, s: seq<u8>, dest: seq<Slot>)
    requires DefaultsFit(d) && Fits(d, dest) && Decode(d, s, dest).Some?
    ensures Fits(d, Decode(d, s, dest).value)
  {
    InitFits(d, dest);
    MsgFits(d, s, InitMsg(d, dest));
  }
}
