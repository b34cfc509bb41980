/** Decoding what was encoded gives the message back. */
module PbRoundTrip {
  import opened Words
  import opened PbVarint
  import opened PbStream
  import opened PbModel
  import opened PbEncode
  import opened PbDecodeSpec

  // ---- Freshly initialised structures -----------------------------------------------------------------

  predicate FreshValue(f: Field, v: Value)
    decreases f, 0
  {
    match f.ltype
    case LSubmsg(sub) => v.VMsg? && Fresh(sub, v.slots)
    case _ => v == f.dflt
  }

  predicate FreshSlot(f: Field, s: Slot)
    decreases f, 1
  {
    match f.htype
    case Required | Singular => s.Single? && FreshValue(f, s.v)
    case Optional => s.Opt? && !s.has && FreshValue(f, s.v)
    case Repeated => s == Rep([])
    case FixArray => s.Fixed? && |s.items| == f.arraySize && TypedItems(f, s.items)
    case Oneof(_) => s.Member? && !s.chosen && TypedValue(f, s.v)
  }

  /** Nothing present, all data at its default; old contents remain in fixed arrays and unions only. */
  predicate Fresh(d: MsgDesc, m: seq<Slot>)
    decreases d, 2
  {
    |m| == |d.fields| && forall i :: 0 <= i < |m| ==> FreshSlot(d.fields[i], m[i])
  }

  lemma {:induction false} ZeroFresh(d: MsgDesc)
    requires GoodDesc(d) && SortedDesc(d) && !NeedsInit(d)
    ensures Fresh(d, ZeroMsg(d))
  {
    forall i | 0 <= i < |d.fields| ensures FreshSlot(d.fields[i], ZeroSlot(d.fields[i])) {
      assert GoodField(d.fields[i]) && SortedField(d.fields[i], d.hasDefaults);
      ZeroTyped(d.fields[i]);
    }
  }

  /** pb_message_set_to_defaults makes any structure fresh. */
  lemma {:induction false} InitFresh(d: MsgDesc, m: seq<Slot>)
    requires GoodDesc(d) && SortedDesc(d) && Typed(d, m)
    ensures Fresh(d, InitMsg(d, m))
    decreases d, 1
  {
    forall i | 0 <= i < |m| ensures FreshSlot(d.fields[i], InitSlot(d.fields[i], m[i])) {
      var f := d.fields[i];
      assert GoodField(f) && SortedField(f, d.hasDefaults) && TypedSlot(f, m[i]);
      if !IsArray(f) { InitValueFresh(f, d.hasDefaults, m[i].v); }
    }
  }

  lemma {:induction false} InitValueFresh(f: Field, hasDefaults: bool, v: Value)
    requires GoodField(f) && SortedField(f, hasDefaults) && TypedValue(f, v)
    ensures FreshValue(f, InitValue(f, v))
    decreases f, 0
  {
    if f.ltype.LSubmsg? {
      if NeedsInit(f.ltype.sub) { InitFresh(f.ltype.sub, v.slots); } else { ZeroFresh(f.ltype.sub); }
    }
  }

  // ---- What decoding makes of a message ------------------------------------------------------------------

  /** v, decoded into memory holding start. */
  function MergeValue(f: Field, v: Value, start: Value): Value
    requires TypedValue(f, v)
    decreases f, 0
  {
    match f.ltype
    case LSubmsg(sub) => VMsg(MergeMsg(sub, v.slots, SlotsOf(sub, start)))
    case _ => v
  }

  /** The first k elements, decoded one after the other into memory holding t. */
  function MergeItems(f: Field, items: seq<Value>, t: seq<Value>, k: nat): seq<Value>
    requires TypedItems(f, items) && k <= |items|
    decreases f, 1, k
  {
    if k == 0 then t
    else
      var before := MergeItems(f, items, t, k - 1);
      PutItem(before, k - 1, MergeValue(f, items[k - 1], ItemStart(f, before, k - 1)))
  }

  /** The slot s of a message of descriptor d, decoded over the fresh slot t. */
  function MergeSlot(d: MsgDesc, f: Field, s: Slot, t: Slot): Slot
    requires TypedSlot(f, s)
    decreases f, 2
  {
    match f.htype
    case Required => Single(MergeValue(f, s.v, DataOf(t)))
    case Singular => if IsDefault(d, f, s) then t else Single(MergeValue(f, s.v, DataOf(t)))
    case Optional => if s.has then Opt(true, MergeValue(f, s.v, DataOf(t))) else t
    case Oneof(_) => if s.chosen then Member(true, MergeValue(f, s.v, FieldStart(f, t))) else t
    case Repeated => Rep(MergeItems(f, s.items, ItemsOf(t), |s.items|))
    case FixArray => Fixed(MergeItems(f, s.items, ItemsOf(t), |s.items|))
  }

  function MergeMsg(d: MsgDesc, m: seq<Slot>, t: seq<Slot>): (r: seq<Slot>)
    requires Typed(d, m) && |t| == |m|
    ensures |r| == |m|
    decreases d, 3
  {
    seq(|m|, i requires 0 <= i < |m| => MergeSlot(d, d.fields[i], m[i], t[i]))
  }

  // ---- One item ----------------------------------------------------------------------------------------------

  lemma WordBack(n: int)
    ensures -0x8000_0000 <= n < 0x8000_0000 ==> ToI32(ToU64(n)) == n
    ensures -0x8000_0000_0000_0000 <= n < 0x8000_0000_0000_0000 ==> ToI64(ToU64(n)) == n
  {}

  lemma SignedBack(f: Field, n: int)
    requires f.ltype.LVarint? && GoodField(f) && TypedValue(f, VInt(n))
    ensures CheckSigned(f, if f.dataSize == 8 then ToI64(ToU64(n)) else ToI32(ToU64(n))) == Some(VInt(n))
  {
    WordBack(n);
  }

  lemma {:induction false} SignedRoundTrip(f: Field, n: int, rest: seq<u8>)
    requires f.ltype.LVarint? && GoodField(f) && TypedValue(f, VInt(n))
    ensures DecVarintValue(f, VarintBytes(ToU64(n)) + rest) == Some((VInt(n), |VarintBytes(ToU64(n))|))
  {
    VarintRoundTrip(ToU64(n), rest);
    SignedBack(f, n);
  }

  lemma {:induction false} ZigZagRoundTrip(f: Field, n: int, rest: seq<u8>)
    requires f.ltype.LSVarint? && GoodField(f) && TypedValue(f, VInt(n))
    ensures DecVarintValue(f, VarintBytes(ZigZag(n)) + rest) == Some((VInt(n), |VarintBytes(ZigZag(n))|))
  {
    ZigZagBijection(n, 0);
    VarintRoundTrip(ZigZag(n), rest);
  }

  lemma {:induction false} FixedRoundTrip(n: nat, w: nat, rest: seq<u8>)
    requires (w == 4 && n < TWO32) || (w == 8 && n < TWO64)
    ensures ReadFixed(LeBytes(n, w) + rest, w) == Some((n, w))
  {
    var k := 8 * w;
    assert Pow2(k) == if w == 4 then TWO32 else TWO64 by { Pow2Constants(); }
    LeRoundTrip(n, w);
    assert (LeBytes(n, w) + rest)[..w] == LeBytes(n, w);
  }

  lemma {:induction false} ScalarRoundTrip(f: Field, n: int, start: Value, rest: seq<u8>)
    requires GoodField(f) && f.ltype.Packable() && TypedValue(f, VInt(n))
    ensures EncScalar(f, n).Some? && |EncScalar(f, n).value| >= 1
    ensures DecValue(f, EncScalar(f, n).value + rest, start) == Some((VInt(n), |EncScalar(f, n).value|))
  {
    match f.ltype {
      case LBool => Varint32RoundTrip(n, rest);
      case LVarint => SignedRoundTrip(f, n, rest);
      case LUVarint => VarintRoundTrip(n, rest);
      case LSVarint => ZigZagRoundTrip(f, n, rest);
      case LFixed32 => FixedRoundTrip(n, 4, rest);
      case LFixed64 => FixedRoundTrip(n, 8, rest);
    }
  }

  lemma {:induction false} CStringWhole(b: seq<u8>)
    requires forall i :: 0 <= i < |b| ==> b[i] != 0
    ensures CString(b) == b
  {
    if b != [] { CStringWhole(b[1..]); }
  }

  lemma {:induction false} FixedBytesRoundTrip(f: Field, b: seq<u8>, rest: seq<u8>)
    requires f.ltype.LFixedBytes? && GoodField(f) && |b| == f.dataSize
    ensures DecFixedBytes(f, LengthPrefixed(b) + rest) == Some((VBytes(b), |LengthPrefixed(b)|))
  {
    var c := VarintBytes(|b|);
    PrefixedIs(b);
    Varint32RoundTrip(|b|, b + rest);
    assert LengthPrefixed(b) + rest == c + (b + rest);
    FixedBytesRead(f, c, b, rest);
  }

  lemma FixedBytesRead(f: Field, c: seq<u8>, b: seq<u8>, rest: seq<u8>)
    requires |b| == f.dataSize <= PB_SIZE_MAX && ReadVarint32(c + (b + rest)) == Some((|b|, |c|))
    ensures DecFixedBytes(f, c + (b + rest)) == Some((VBytes(b), |c| + |b|))
  {
    ReadBlockOf(c + (b + rest), c, b, rest);
    if |b| == 0 { assert b == seq(f.dataSize, _ => 0); }
  }

  /** An item is read back, whatever follows it, into any memory that is fresh where it matters. */
  lemma {:induction false} ValueRoundTrip(f: Field, v: Value, start: Value, rest: seq<u8>)
    requires GoodField(f) && SortedField(f, true) && TypedValue(f, v)
    requires EncValue(f, v).Some? && |EncValue(f, v).value| < TWO32
    requires f.ltype.LSubmsg? ==> SortedField(f, false) && FreshValue(f, start)
    ensures |EncValue(f, v).value| >= 1
    ensures DecValue(f, EncValue(f, v).value + rest, start) == Some((MergeValue(f, v, start), |EncValue(f, v).value|))
    decreases f, 0
  {
    match f.ltype {
      case LBytes => BlockRoundTrip(v.b, rest);
      case LString => BlockRoundTrip(v.b, rest); CStringWhole(v.b);
      case LFixedBytes => FixedBytesRoundTrip(f, v.b, rest);
      case LSubmsg(sub) =>
        var b := EncMsg(sub, v.slots).value;
        BlockRoundTrip(b, rest);
        MsgRoundTrip(sub, v.slots, start.slots);
      case _ => ScalarRoundTrip(f, v.n, start, rest);
    }
  }

  // ---- One record ----------------------------------------------------------------------------------------------

  lemma {:induction false} FindUnique(d: MsgDesc, i: nat, j: nat)
    requires SortedDesc(d) && j <= i < |d.fields|
    ensures FindFrom(d, d.fields[i].tag, j) == Some(i)
    decreases i - j
  {
    if j < i { FindUnique(d, i, j + 1); }
  }

  /** A tag followed by a payload that field number i accepts. */
  lemma {:induction false} RecordRoundTrip(d: MsgDesc, st: DState, i: nat, wt: nat, p: seq<u8>, rest: seq<u8>,
        st': DState)
    requires GoodDesc(d) && SortedDesc(d) && i < |d.fields| && wt < 8 && |st.msg| == |d.fields| == |st'.msg|
    requires DecField(d, st, i, wt, p + rest) == Some((st', |p|))
    ensures DecLoop(d, TagBytes(Tag(d.fields[i].tag, wt)) + p + rest, st) == DecLoop(d, rest, st')
  {
    assert GoodField(d.fields[i]);
    var tag := Tag(d.fields[i].tag, wt);
    var tb := TagBytes(tag);
    var s := tb + p + rest;
    assert s == tb + (p + rest);
    TagRoundTrip(tag, p + rest);
    FindUnique(d, i, 0);
    assert s[|tb|..] == p + rest;
    assert s[|tb| + |p|..] == rest;
    assert Step(d, s, st) == Some((st', |tb| + |p|));
  }

  // ---- The state after some fields --------------------------------------------------------------------------------

  /** The state of the decoding loop when the first k fields of m have been read. */
  function StateAfter(d: MsgDesc, m: seq<Slot>, t: seq<Slot>, k: nat): (r: DState)
    requires Typed(d, m) && |t| == |m| && k <= |m|
    ensures |r.msg| == |m|
  {
    if k == 0 then Start(t)
    else
      var p, i, f := StateAfter(d, m, t, k - 1), k - 1, d.fields[k - 1];
      DState(p.msg[i := MergeSlot(d, f, m[i], t[i])],
             if f.htype.FixArray? then Some(i) else p.fc,
             if f.htype.FixArray? then f.arraySize else p.fcSize,
             if f.htype.Required? && RequiredBefore(d, i) < PB_MAX_REQUIRED_FIELDS then
                   p.seen + {RequiredBefore(d, i)} else p.seen)
  }

  lemma {:induction false} StateShape(d: MsgDesc, m: seq<Slot>, t: seq<Slot>, k: nat)
    requires Typed(d, m) && |t| == |m| && k <= |m|
    ensures var st := StateAfter(d, m, t, k);
            && (forall j :: 0 <= j < |m| ==> st.msg[j] == if j < k then MergeSlot(d, d.fields[j], m[j], t[j]) else t[j])
            && (st.fc.Some? ==> st.fc.value < k && st.fcSize == d.fields[st.fc.value].arraySize)
            && (forall r :: 0 <= r < RequiredBefore(d, k) && r < PB_MAX_REQUIRED_FIELDS ==> r in st.seen)
  {
    if k > 0 { StateShape(d, m, t, k - 1); }
  }

  // ---- Single fields ---------------------------------------------------------------------------------------------

  /** Whether a field that is not an array is written. */
  predicate Present(d: MsgDesc, f: Field, s: Slot)
    requires TypedSlot(f, s) && !IsArray(f)
  {
    match f.htype
    case Required => true
    case Optional => s.has
    case Singular => !IsDefault(d, f, s)
    case Oneof(_) => s.chosen
  }

  lemma {:induction false} PutSingleIs(d: MsgDesc, m: seq<Slot>, t: seq<Slot>, i: nat)
    requires Typed(d, m) && Fresh(d, t) && i < |m| && !IsArray(d.fields[i]) && TypedSlot(d.fields[i], m[i])
    requires Present(d, d.fields[i], m[i])
    ensures var f, st := d.fields[i], StateAfter(d, m, t, i);
            var v := MergeValue(f, m[i].v, FieldStart(f, t[i]));
            PutSingle(d, st.msg, i, v)
              == st.msg[i := if f.htype.Oneof? then Member(true, v) else if f.htype.Optional? then Opt(true, v)
                    else Single(v)]
  {
    var f, st := d.fields[i], StateAfter(d, m, t, i);
    StateShape(d, m, t, i);
    assert TypedSlot(f, m[i]);
    if f.htype.Oneof? {
      var v := MergeValue(f, m[i].v, FieldStart(f, t[i]));
      forall j | 0 <= j < |m| && j != i && d.fields[j].htype == f.htype
        ensures st.msg[j] == Member(false, DataOf(st.msg[j]))
      {
        assert TypedSlot(d.fields[j], m[j]) && FreshSlot(d.fields[j], t[j]);
        assert !IsSet(m[j]);
      }
    }
  }

  /** A field that is present and not an array. */
  lemma {:induction false} SingleRoundTrip(d: MsgDesc, m: seq<Slot>, t: seq<Slot>, i: nat, rest: seq<u8>)
    requires GoodDesc(d) && SortedDesc(d) && Typed(d, m) && Fresh(d, t) && i < |m| && !IsArray(d.fields[i])
    requires TypedSlot(d.fields[i], m[i]) && Present(d, d.fields[i], m[i])
    requires EncValue(d.fields[i], m[i].v).Some? && |EncValue(d.fields[i], m[i].v).value| < TWO32
    ensures DecLoop(d, EncTagged(d.fields[i], m[i].v).value + rest, StateAfter(d, m, t, i))
          == DecLoop(d, rest, StateAfter(d, m, t, i + 1))
    decreases d, 2
  {
    var f, st := d.fields[i], StateAfter(d, m, t, i);
    assert f < d && GoodField(f) && SortedField(f, d.hasDefaults) && TypedSlot(f, m[i]) && FreshSlot(f, t[i]);
    StateShape(d, m, t, i);
    var p := EncValue(f, m[i].v).value;
    StartFresh(f, d.hasDefaults, t[i]);
    ValueRoundTrip(f, m[i].v, FieldStart(f, t[i]), rest);
    SingleField(d, m, t, i, p, rest);
    RecordRoundTrip(d, st, i, WireType(f.ltype), p, rest, StateAfter(d, m, t, i + 1));
  }

  lemma {:induction false} SingleField(d: MsgDesc, m: seq<Slot>, t: seq<Slot>, i: nat, p: seq<u8>, rest: seq<u8>)
    requires Typed(d, m) && Fresh(d, t) && i < |m| && !IsArray(d.fields[i])
    requires TypedSlot(d.fields[i], m[i]) && Present(d, d.fields[i], m[i])
    requires var f := d.fields[i];
             DecValue(f, p + rest, FieldStart(f, t[i])) == Some((MergeValue(f, m[i].v, FieldStart(f, t[i])), |p|))
    ensures DecField(d, StateAfter(d, m, t, i), i, WireType(d.fields[i].ltype), p + rest)
          == Some((StateAfter(d, m, t, i + 1), |p|))
  {
    StateShape(d, m, t, i);
    PutSingleIs(d, m, t, i);
  }

  lemma {:induction false} StartFresh(f: Field, hasDefaults: bool, t: Slot)
    requires GoodField(f) && SortedField(f, hasDefaults) && FreshSlot(f, t) && !IsArray(f)
    ensures f.ltype.LSubmsg? ==> FreshValue(f, FieldStart(f, t))
  {
    if f.htype.Oneof? && f.ltype.LSubmsg? {
      ZeroTyped(f);
      InitValueFresh(f, hasDefaults, ZeroValue(f));
    }
  }

  lemma JoinThree(a: seq<u8>, b: seq<u8>, c: seq<u8>)
    ensures a + b + c == a + (b + c)
  {}

  // ---- Arrays ---------------------------------------------------------------------------------------------------

  /** The memory of an array before its first element is decoded. */
  predicate FreshItems(f: Field, t: seq<Value>) {
    if f.htype.Repeated? then t == [] else |t| == f.arraySize && TypedItems(f, t)
  }

  lemma {:induction false} MergeItemsShape(f: Field, items: seq<Value>, t: seq<Value>, k: nat)
    requires TypedItems(f, items) && k <= |items| && FreshItems(f, t)
          && (f.htype.FixArray? ==> |items| == f.arraySize) && IsArray(f)
    ensures var r := MergeItems(f, items, t, k);
            && |r| == (if f.htype.Repeated? then k else f.arraySize)
            && forall j :: k <= j < |r| ==> r[j] == t[j]
    decreases k
  {
    if k > 0 { MergeItemsShape(f, items, t, k - 1); }
  }

  lemma {:induction false} ItemStartFresh(f: Field, hasDefaults: bool, items: seq<Value>, t: seq<Value>, k: nat)
    requires GoodField(f) && SortedField(f, hasDefaults) && IsArray(f)
    requires TypedItems(f, items) && k < |items| && FreshItems(f, t) && (f.htype.FixArray? ==> |items| == f.arraySize)
    ensures f.ltype.LSubmsg? ==> FreshValue(f, ItemStart(f, MergeItems(f, items, t, k), k))
  {
    MergeItemsShape(f, items, t, k);
    if f.ltype.LSubmsg? {
      var r := MergeItems(f, items, t, k);
      ZeroTyped(f);
      var v := if k < |r| then r[k] else ZeroValue(f);
      if k < |r| { assert TypedValue(f, t[k]); }
      assert TypedValue(f, v);
      InitFresh(f.ltype.sub, v.slots);
    }
  }

  /** A packed block read element by element. */
  lemma {:induction false} PackedRoundTrip(f: Field, items: seq<Value>, t: seq<Value>, k: nat, rest: seq<u8>)
    requires GoodField(f) && f.ltype.Packable() && IsArray(f) && TypedItems(f, items) && k <= |items| <= f.arraySize
    ensures Payload(f, items, k).Some?
    ensures DecPacked(f, Payload(f, items, k).value + rest, t, 0) == DecPacked(f, rest, MergeItems(f, items, t, k), k)
    decreases k
  {
    if k == 0 {
      assert Payload(f, items, 0).value + rest == rest;
    } else {
      assert TypedValue(f, items[k - 1]);
      ScalarRoundTrip(f, items[k - 1].n, VInt(0), rest);
      var e := EncScalar(f, items[k - 1].n).value;
      PackedRoundTrip(f, items, t, k - 1, e + rest);
      JoinThree(Payload(f, items, k - 1).value, e, rest);
      PackedStep(f, items, t, k - 1, rest);
    }
  }

  lemma {:induction false} PackedStep(f: Field, items: seq<Value>, t: seq<Value>, k: nat, rest: seq<u8>)
    requires GoodField(f) && f.ltype.Packable() && TypedItems(f, items) && k < |items| <= f.arraySize
          && TypedValue(f, items[k])
    ensures EncScalar(f, items[k].n).Some?
    ensures DecPacked(f, EncScalar(f, items[k].n).value + rest, MergeItems(f, items, t, k), k)
              == DecPacked(f, rest, MergeItems(f, items, t, k + 1), k + 1)
  {
    var before := MergeItems(f, items, t, k);
    var start := ItemStart(f, before, k);
    ScalarRoundTrip(f, items[k].n, start, rest);
    var e := EncScalar(f, items[k].n).value;
    assert (e + rest)[|e|..] == rest;
    assert MergeValue(f, items[k], start) == items[k];
  }

  /** The state when k elements of array i have been decoded, after the fields before it. */
  function ArrayState(d: MsgDesc, m: seq<Slot>, t: seq<Slot>, i: nat, k: nat): (r: DState)
    requires Typed(d, m) && |t| == |m| && i < |m| && IsArray(d.fields[i]) && TypedSlot(d.fields[i], m[i])
          && k <= |m[i].items|
    ensures |r.msg| == |m|
  {
    var st, f := StateAfter(d, m, t, i), d.fields[i];
    var items := MergeItems(f, m[i].items, ItemsOf(t[i]), k);
    if f.htype.Repeated? then st.(msg := st.msg[i := Rep(items)])
    else if k == 0 then st
    else st.(msg := st.msg[i := Fixed(items)], fc := Some(i), fcSize := k)
  }

  lemma {:induction false} ArrayStateIs(d: MsgDesc, m: seq<Slot>, t: seq<Slot>, i: nat, k: nat)
    requires Typed(d, m) && Fresh(d, t) && i < |m| && IsArray(d.fields[i]) && TypedSlot(d.fields[i], m[i])
          && k <= |m[i].items|
    ensures var f, a := d.fields[i], ArrayState(d, m, t, i, k);
            && FreshItems(f, ItemsOf(t[i])) && ItemsOf(a.msg[i]) == MergeItems(f, m[i].items, ItemsOf(t[i]), k)
            && Enter(d, a, i).Some? && Count(d, Enter(d, a, i).value, i) == k
            && (f.htype.FixArray? ==> Enter(d, a, i).value.fc == Some(i))
            && (f.htype.Repeated? ==> Enter(d, a, i).value == a)
    ensures k == 0 ==> ArrayState(d, m, t, i, k) == StateAfter(d, m, t, i)
    ensures k == |m[i].items| > 0 ==> ArrayState(d, m, t, i, k) == StateAfter(d, m, t, i + 1)
  {
    assert FreshSlot(d.fields[i], t[i]);
    StateShape(d, m, t, i);
    MergeItemsShape(d.fields[i], m[i].items, ItemsOf(t[i]), k);
    var st := StateAfter(d, m, t, i);
    if k == 0 { assert st.msg[i] == t[i]; assert st.msg[i := t[i]] == st.msg; }
  }

  /** One element of an array, with its own tag. */
  lemma {:induction false} ElementRoundTrip(d: MsgDesc, m: seq<Slot>, t: seq<Slot>, i: nat, k: nat, rest: seq<u8>)
    requires GoodDesc(d) && SortedDesc(d) && Typed(d, m) && Fresh(d, t) && i < |m| && IsArray(d.fields[i])
    requires TypedSlot(d.fields[i], m[i]) && k < |m[i].items| <= d.fields[i].arraySize
          && TypedValue(d.fields[i], m[i].items[k])
    requires var e := EncValue(d.fields[i], m[i].items[k]); e.Some? && |e.value| < TWO32
    ensures DecLoop(d, EncTagged(d.fields[i], m[i].items[k]).value + rest, ArrayState(d, m, t, i, k))
              == DecLoop(d, rest, ArrayState(d, m, t, i, k + 1))
    decreases d, 2
  {
    var f, a := d.fields[i], ArrayState(d, m, t, i, k);
    var items, t0 := m[i].items, ItemsOf(t[i]);
    assert f < d && GoodField(f) && SortedField(f, d.hasDefaults);
    ArrayStateIs(d, m, t, i, k);
    ItemStartFresh(f, d.hasDefaults, items, t0, k);
    var p := EncValue(f, items[k]).value;
    var start := ItemStart(f, MergeItems(f, items, t0, k), k);
    ValueRoundTrip(f, items[k], start, rest);
    ElementField(d, m, t, i, k, p, rest);
    RecordRoundTrip(d, a, i, WireType(f.ltype), p, rest, ArrayState(d, m, t, i, k + 1));
  }

  lemma {:induction false} ElementField(d: MsgDesc, m: seq<Slot>, t: seq<Slot>, i: nat, k: nat, p: seq<u8>,
        rest: seq<u8>)
    requires Typed(d, m) && Fresh(d, t) && i < |m| && IsArray(d.fields[i])
    requires TypedSlot(d.fields[i], m[i]) && k < |m[i].items| <= d.fields[i].arraySize
          && TypedValue(d.fields[i], m[i].items[k])
    requires var f, items := d.fields[i], m[i].items;
             var start := ItemStart(f, MergeItems(f, items, ItemsOf(t[i]), k), k);
             DecValue(f, p + rest, start) == Some((MergeValue(f, items[k], start), |p|))
    ensures DecField(d, ArrayState(d, m, t, i, k), i, WireType(d.fields[i].ltype), p + rest)
          == Some((ArrayState(d, m, t, i, k + 1), |p|))
  {
    var f, a, a' := d.fields[i], ArrayState(d, m, t, i, k), ArrayState(d, m, t, i, k + 1);
    ArrayStateIs(d, m, t, i, k);
    assert PutArray(d, Enter(d, a, i).value, i, MergeItems(f, m[i].items, ItemsOf(t[i]), k + 1), k + 1) == a';
  }

  lemma {:induction false} ElementsRoundTrip(d: MsgDesc, m: seq<Slot>, t: seq<Slot>, i: nat, k: nat, rest: seq<u8>)
    requires GoodDesc(d) && SortedDesc(d) && Typed(d, m) && Fresh(d, t) && i < |m| && IsArray(d.fields[i])
    requires TypedSlot(d.fields[i], m[i]) && k <= |m[i].items| <= d.fields[i].arraySize
    requires var e := EncItems(d.fields[i], m[i].items, k); e.Some? && |e.value| < TWO32
    ensures DecLoop(d, EncItems(d.fields[i], m[i].items, k).value + rest, StateAfter(d, m, t, i))
              == DecLoop(d, rest, ArrayState(d, m, t, i, k))
    decreases d, 3, k
  {
    var f, items := d.fields[i], m[i].items;
    if k == 0 {
      ArrayStateIs(d, m, t, i, k);
      assert EncItems(f, items, k).value + rest == rest;
    } else {
      assert TypedValue(f, items[k - 1]);
      var e := EncTagged(f, items[k - 1]).value;
      var x', x := EncItems(f, items, k - 1).value, EncItems(f, items, k).value;
      ElementsRoundTrip(d, m, t, i, k - 1, e + rest);
      ElementRoundTrip(d, m, t, i, k - 1, rest);
      ItemsJoin(x, x', e, rest);
    }
  }

  lemma ItemsJoin(x: seq<u8>, x': seq<u8>, e: seq<u8>, rest: seq<u8>)
    requires x == x' + e
    ensures x + rest == x' + (e + rest)
  {}

  lemma PackedFieldIs(d: MsgDesc, st: DState, st1: DState, i: nat, s: seq<u8>, items: seq<Value>, c: nat,
                      items': seq<Value>, c': nat, n: nat)
    requires |st.msg| == |d.fields| && i < |d.fields| && IsArray(d.fields[i]) && d.fields[i].ltype.Packable()
    requires Enter(d, st, i) == Some(st1) && ItemsOf(st1.msg[i]) == items && Count(d, st1, i) == c
    requires DecPackedBlock(d.fields[i], s, items, c) == Some(((items', c'), n))
    ensures DecField(d, st, i, WT_STRING, s) == Some((PutArray(d, st1, i, items', c'), n))
  {
    assert DecArray(d, st1, i, WT_STRING, s) == Some((PutArray(d, st1, i, items', c'), n));
  }

  lemma {:induction false} PackedFieldRoundTrip(d: MsgDesc, m: seq<Slot>, t: seq<Slot>, i: nat, rest: seq<u8>)
    requires GoodDesc(d) && SortedDesc(d) && Typed(d, m) && Fresh(d, t) && i < |m| && IsArray(d.fields[i])
    requires TypedSlot(d.fields[i], m[i]) && 1 <= |m[i].items| <= d.fields[i].arraySize && d.fields[i].ltype.Packable()
    requires var e := EncPacked(d.fields[i], m[i].items); e.Some? && |e.value| < TWO32
    ensures DecLoop(d, EncPacked(d.fields[i], m[i].items).value + rest, StateAfter(d, m, t, i))
          == DecLoop(d, rest, StateAfter(d, m, t, i + 1))
  {
    var f, st, items, t0 := d.fields[i], StateAfter(d, m, t, i), m[i].items, ItemsOf(t[i]);
    var n := |items|;
    assert GoodField(f);
    ArrayStateIs(d, m, t, i, 0);
    ArrayStateIs(d, m, t, i, n);
    var b := Payload(f, items, n).value;
    PackedRoundTrip(f, items, t0, n, []);
    assert b + [] == b;
    BlockRoundTrip(b, rest);
    var p, st' := LengthPrefixed(b), StateAfter(d, m, t, i + 1);
    var done := MergeItems(f, items, t0, n);
    assert DecPacked(f, b, t0, 0) == Some((done, n));
    assert DecPackedBlock(f, p + rest, t0, 0) == Some(((done, n), |p|));
    assert PutArray(d, Enter(d, st, i).value, i, done, n) == st';
    PackedFieldIs(d, st, Enter(d, st, i).value, i, p + rest, t0, 0, done, n, |p|);
    RecordRoundTrip(d, st, i, WT_STRING, p, rest, st');
  }

  // ---- Whole messages ----------------------------------------------------------------------------------------------

  lemma {:induction false} FieldRoundTrip(d: MsgDesc, m: seq<Slot>, t: seq<Slot>, i: nat, rest: seq<u8>)
    requires GoodDesc(d) && SortedDesc(d) && Typed(d, m) && Fresh(d, t) && i < |m| && TypedSlot(d.fields[i], m[i])
    requires var e := EncSlot(d, d.fields[i], m[i]); e.Some? && |e.value| < TWO32
    ensures DecLoop(d, EncSlot(d, d.fields[i], m[i]).value + rest, StateAfter(d, m, t, i))
          == DecLoop(d, rest, StateAfter(d, m, t, i + 1))
    decreases d, 4
  {
    var f, e := d.fields[i], EncSlot(d, d.fields[i], m[i]).value;
    if IsArray(f) {
      if |m[i].items| > 0 {
        ArrayStateIs(d, m, t, i, |m[i].items|);
        if f.ltype.Packable() { PackedFieldRoundTrip(d, m, t, i, rest); }
        else { ElementsRoundTrip(d, m, t, i, |m[i].items|, rest); }
      } else {
        NothingWritten(d, m, t, i, rest);
      }
    } else if Present(d, f, m[i]) {
      SingleRoundTrip(d, m, t, i, rest);
    } else {
      NothingWritten(d, m, t, i, rest);
    }
  }

  lemma {:induction false} NothingWritten(d: MsgDesc, m: seq<Slot>, t: seq<Slot>, i: nat, rest: seq<u8>)
    requires GoodDesc(d) && Typed(d, m) && Fresh(d, t) && i < |m| && TypedSlot(d.fields[i], m[i])
    requires if IsArray(d.fields[i]) then m[i].items == [] else !Present(d, d.fields[i], m[i])
    ensures EncSlot(d, d.fields[i], m[i]) == Some([]) && [] + rest == rest
    ensures StateAfter(d, m, t, i + 1) == StateAfter(d, m, t, i)
  {
    assert FreshSlot(d.fields[i], t[i]) && GoodField(d.fields[i]);
    StateShape(d, m, t, i);
    var st := StateAfter(d, m, t, i);
    assert MergeSlot(d, d.fields[i], m[i], t[i]) == t[i];
    assert st.msg[i := t[i]] == st.msg;
  }

  lemma {:induction false} FieldsRoundTrip(d: MsgDesc, m: seq<Slot>, t: seq<Slot>, k: nat, rest: seq<u8>)
    requires GoodDesc(d) && SortedDesc(d) && Typed(d, m) && Fresh(d, t) && k <= |m|
    requires var e := EncUpTo(d, m, k); e.Some? && |e.value| < TWO32
    ensures DecLoop(d, EncUpTo(d, m, k).value + rest, Start(t)) == DecLoop(d, rest, StateAfter(d, m, t, k))
    decreases d, 5, k
  {
    if k == 0 {
      assert EncUpTo(d, m, 0).value + rest == rest;
    } else {
      var j := k - 1;
      assert TypedSlot(d.fields[j], m[j]);
      var x', x, e := EncUpTo(d, m, j).value, EncUpTo(d, m, k).value, EncSlot(d, d.fields[j], m[j]).value;
      FieldsRoundTrip(d, m, t, j, e + rest);
      ItemsJoin(x, x', e, rest);
      FieldRoundTrip(d, m, t, j, rest);
    }
  }

  lemma {:induction false} MsgRoundTrip(d: MsgDesc, m: seq<Slot>, t: seq<Slot>)
    requires GoodDesc(d) && SortedDesc(d) && Typed(d, m) && Fresh(d, t)
    requires EncMsg(d, m).Some? && |EncMsg(d, m).value| < TWO32
    ensures DecMsg(d, EncMsg(d, m).value, t) == Some(MergeMsg(d, m, t))
    decreases d, 9
  {
    var b, n := EncMsg(d, m).value, |m|;
    FieldsRoundTrip(d, m, t, n, []);
    assert b + [] == b;
    StateShape(d, m, t, n);
    assert StateAfter(d, m, t, n).msg == MergeMsg(d, m, t);
  }

  // ---- What "the message back" means ------------------------------------------------------------------------------

  predicate SameValue(f: Field, a: Value, b: Value)
    decreases f, 0
  {
    match f.ltype
    case LSubmsg(sub) => a.VMsg? && b.VMsg? && SameMsg(sub, a.slots, b.slots)
    case _ => a == b
  }

  predicate SameItems(f: Field, a: seq<Value>, b: seq<Value>)
    decreases f, 1
  {
    |a| == |b| && forall i :: 0 <= i < |a| ==> SameValue(f, a[i], b[i])
  }

  /** Presence agrees, and the data of everything present agrees. */
  predicate SameSlot(f: Field, a: Slot, b: Slot)
    decreases f, 2
  {
    match f.htype
    case Required | Singular => a.Single? && b.Single? && SameValue(f, a.v, b.v)
    case Optional => a.Opt? && b.Opt? && a.has == b.has && (a.has ==> SameValue(f, a.v, b.v))
    case Repeated => a.Rep? && b.Rep? && SameItems(f, a.items, b.items)
    case FixArray => a.Fixed? && b.Fixed? && SameItems(f, a.items, b.items)
    case Oneof(_) => a.Member? && b.Member? && a.chosen == b.chosen && (a.chosen ==> SameValue(f, a.v, b.v))
  }

  predicate SameMsg(d: MsgDesc, a: seq<Slot>, b: seq<Slot>)
    decreases d, 3
  {
    |a| == |b| == |d.fields| && forall i :: 0 <= i < |a| ==> SameSlot(d.fields[i], a[i], b[i])
  }

  lemma {:induction false} MergeSameValue(f: Field, hasDefaults: bool, v: Value, start: Value)
    requires GoodField(f) && SortedField(f, hasDefaults) && TypedValue(f, v)
          && (f.ltype.LSubmsg? ==> FreshValue(f, start))
    ensures SameValue(f, v, MergeValue(f, v, start))
    decreases f, 0
  {
    if f.ltype.LSubmsg? { MergeSame(f.ltype.sub, v.slots, start.slots); }
  }

  lemma {:induction false} MergeSameItems(f: Field, hasDefaults: bool, items: seq<Value>, t: seq<Value>, k: nat)
    requires GoodField(f) && SortedField(f, hasDefaults) && IsArray(f) && TypedItems(f, items) && FreshItems(f, t)
    requires k <= |items| && (f.htype.FixArray? ==> |items| == f.arraySize)
    ensures var r := MergeItems(f, items, t, k); |r| >= k && forall i :: 0 <= i < k ==> SameValue(f, items[i], r[i])
    decreases f, 1, k
  {
    MergeItemsShape(f, items, t, k);
    if k > 0 {
      MergeSameItems(f, hasDefaults, items, t, k - 1);
      MergeItemsShape(f, items, t, k - 1);
      ItemStartFresh(f, hasDefaults, items, t, k - 1);
      assert TypedValue(f, items[k - 1]);
      MergeSameValue(f, hasDefaults, items[k - 1], ItemStart(f, MergeItems(f, items, t, k - 1), k - 1));
    }
  }

  /** A field left out because it has its default value is found at that value in a fresh structure. */
  lemma {:induction false} DefaultIsFresh(d: MsgDesc, f: Field, s: Slot, t: Slot)
    requires GoodField(f) && SortedField(f, d.hasDefaults) && TypedSlot(f, s) && FreshSlot(f, t) && IsDefault(d, f, s)
    ensures SameSlot(f, s, t)
    decreases f, 0
  {
    if f.htype.Singular? && f.ltype.LSubmsg? {
      var sub := f.ltype.sub;
      assert TypedValue(f, s.v) && FreshValue(f, t.v);
      assert Fresh(sub, t.v.slots) && AllDefault(sub, s.v.slots);
      forall i | 0 <= i < |sub.fields| ensures SameSlot(sub.fields[i], s.v.slots[i], t.v.slots[i]) {
        var g := sub.fields[i];
        assert GoodField(g) && SortedField(g, sub.hasDefaults) && FreshSlot(g, t.v.slots[i])
              && TypedSlot(g, s.v.slots[i]);
        DefaultIsFresh(sub, g, s.v.slots[i], t.v.slots[i]);
      }
    } else if f.htype.Singular? {
      assert TypedValue(f, s.v) && FreshValue(f, t.v);
      if f.ltype.LFixedBytes? { assert s.v.b == []; assert seq(f.dataSize, _ => 0) == []; }
    }
  }

  lemma {:induction false} MergeSameSlot(d: MsgDesc, f: Field, s: Slot, t: Slot)
    requires GoodField(f) && SortedField(f, d.hasDefaults) && TypedSlot(f, s) && FreshSlot(f, t)
    ensures SameSlot(f, s, MergeSlot(d, f, s, t))
    decreases f, 2
  {
    if IsArray(f) {
      MergeSameItems(f, d.hasDefaults, s.items, ItemsOf(t), |s.items|);
      MergeItemsShape(f, s.items, ItemsOf(t), |s.items|);
    } else if Present(d, f, s) {
      StartFresh(f, d.hasDefaults, t);
      MergeSameValue(f, d.hasDefaults, s.v, FieldStart(f, t));
    } else if f.htype.Singular? {
      DefaultIsFresh(d, f, s, t);
    }
  }

  lemma {:induction false} MergeSame(d: MsgDesc, m: seq<Slot>, t: seq<Slot>)
    requires GoodDesc(d) && SortedDesc(d) && Typed(d, m) && Fresh(d, t)
    ensures SameMsg(d, m, MergeMsg(d, m, t))
    decreases d, 3
  {
    forall i | 0 <= i < |m| ensures SameSlot(d.fields[i], m[i], MergeSlot(d, d.fields[i], m[i], t[i])) {
      assert GoodField(d.fields[i]) && SortedField(d.fields[i], d.hasDefaults);
      assert TypedSlot(d.fields[i], m[i]) && FreshSlot(d.fields[i], t[i]);
      MergeSameSlot(d, d.fields[i], m[i], t[i]);
    }
  }

  /** Whatever the structure held before, decoding the encoding of m succeeds and gives m back, and
      fields that m lacks are as initialisation to defaults leaves them. */
  lemma {:induction false} MessageRoundTrip(d: MsgDesc, m: seq<Slot>, dest: seq<Slot>)
    requires GoodDesc(d) && SortedDesc(d) && Typed(d, m) && Typed(d, dest)
    requires EncMsg(d, m).Some? && |EncMsg(d, m).value| < TWO32
    ensures var r := Decode(d, EncMsg(d, m).value, dest);
            && r.Some? && SameMsg(d, m, r.value)
            && forall i | 0 <= i < |m| && TypedSlot(d.fields[i], m[i]) && !IsArray(d.fields[i])
                          && !Present(d, d.fields[i], m[i]) ::
                 r.value[i] == InitMsg(d, dest)[i]
  {
    var t := InitMsg(d, dest);
    InitFresh(d, dest);
    MsgRoundTrip(d, m, t);
    MergeSame(d, m, t);
  }
}
