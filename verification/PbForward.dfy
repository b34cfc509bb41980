/** A reader with an older descriptor: whole fields that its descriptor does not have can stand anywhere between the
    fields that it does have, in any number. */
module PbForward {
  import opened Words
  import opened PbVarint
  import opened PbStream
  import opened PbModel
  import opened PbDecodeSpec
  import opened PbUnknown
  import opened PbEncode
  import PbRoundTrip

  // ---- Decoding looks at one whole field at a time ---------------------------------------------------------

  /** One whole field on the wire: a tag, and the bytes that its wire type says. */
  predicate IsField(u: seq<u8>) {
    match ReadTag(u)
    case None => false
    case Some((tag, n)) => FieldExtent(tag.wireType, u[n..]) == Some(|u| - n)
  }

  /** A varint that ends is read, or rejected, whatever follows it. */
  lemma VarintWithin(s: seq<u8>, more: seq<u8>)
    requires Extent(s).Some?
    ensures ReadVarint(s + more) == ReadVarint(s) && ReadVarint32(s + more) == ReadVarint32(s)
  {
    var n := Extent(s).value;
    ExtentExtends(s, more);
    assert (s + more)[..n] == s[..n];
    VarintExtends(s, more);
    forall negative: bool ensures Extended(s + more, n, negative) <==> Extended(s, n, negative) {
      ExtendedWithin(s, more, n, negative);
    }
  }

  lemma ExtendedWithin(s: seq<u8>, more: seq<u8>, n: nat, negative: bool)
    requires n <= |s|
    ensures Extended(s + more, n, negative) <==> Extended(s, n, negative)
  {
    if Extended(s + more, n, negative) {
      forall i | 5 <= i < n ensures SignExtension(i, s[i], negative) {
        assert SignExtension(i, (s + more)[i], negative);
      }
    }
    if Extended(s, n, negative) {
      forall i | 5 <= i < n ensures SignExtension(i, (s + more)[i], negative) {
        assert SignExtension(i, s[i], negative);
      }
    }
  }

  /** The data of a whole field is decoded, or rejected, whatever follows it, and taken whole. */
  lemma {:induction false} ValueWithin(f: Field, s: seq<u8>, start: Value, more: seq<u8>)
    requires FieldExtent(WireType(f.ltype), s) == Some(|s|)
    ensures DecValue(f, s + more, start) == DecValue(f, s, start)
    ensures DecValue(f, s, start).Some? ==> DecValue(f, s, start).value.1 == |s|
  {
    match f.ltype {
      case LBool | LVarint | LUVarint | LSVarint => VarintWithin(s, more);
      case LFixed32 => FixedExtends(s, 4, more);
      case LFixed64 => FixedExtends(s, 8, more);
      case LBytes | LString | LSubmsg(_) => BlockWithin(s, more);
      case LFixedBytes => FixedBytesWithin(f, s, more);
    }
  }

  lemma BlockWithin(s: seq<u8>, more: seq<u8>)
    requires FieldExtent(WT_STRING, s) == Some(|s|)
    ensures ReadBlock(s + more) == ReadBlock(s) && ReadBlock(s).Some? && ReadBlock(s).value.1 == |s|
  {
    BlockExtends(s, more);
  }

  lemma PackedBlockWithin(f: Field, s: seq<u8>, items: seq<Value>, c: nat, more: seq<u8>)
    requires FieldExtent(WT_STRING, s) == Some(|s|)
    ensures DecPackedBlock(f, s + more, items, c) == DecPackedBlock(f, s, items, c)
    ensures DecPackedBlock(f, s, items, c).Some? ==> DecPackedBlock(f, s, items, c).value.1 == |s|
  {
    BlockWithin(s, more);
  }

  lemma PrefixSlice(s: seq<u8>, more: seq<u8>, i: nat, j: nat)
    requires i <= j <= |s|
    ensures (s + more)[i..j] == s[i..j]
  {}

  lemma FixedBytesWithin(f: Field, s: seq<u8>, more: seq<u8>)
    requires FieldExtent(WT_STRING, s) == Some(|s|)
    ensures DecFixedBytes(f, s + more) == DecFixedBytes(f, s)
    ensures DecFixedBytes(f, s).Some? ==> DecFixedBytes(f, s).value.1 == |s|
  {
    VarintExtends(s, more);
    var (size, n) := ReadVarint32(s).value;
    PrefixSlice(s, more, n, n + size);
  }

  lemma {:induction false} FieldWithin(d: MsgDesc, st: DState, i: nat, wt: nat, s: seq<u8>, more: seq<u8>)
    requires |st.msg| == |d.fields| && i < |d.fields| && FieldExtent(wt, s) == Some(|s|)
    ensures DecField(d, st, i, wt, s + more) == DecField(d, st, i, wt, s)
    ensures DecField(d, st, i, wt, s).Some? ==> DecField(d, st, i, wt, s).value.1 == |s|
  {
    var f := d.fields[i];
    if Enter(d, st, i).Some? {
      var st1 := Enter(d, st, i).value;
      if IsArray(f) && wt == WT_STRING && f.ltype.Packable() {
        PackedBlockWithin(f, s, ItemsOf(st1.msg[i]), Count(d, st1, i), more);
      } else if wt == WireType(f.ltype) {
        ValueWithin(f, s, if IsArray(f) then ItemStart(f, ItemsOf(st1.msg[i]), Count(d, st1, i))
                          else FieldStart(f, st1.msg[i]), more);
      }
    }
  }

  lemma {:induction false} AfterTagWithin(d: MsgDesc, st: DState, tag: Tag, s: seq<u8>, more: seq<u8>)
    requires |st.msg| == |d.fields| && FieldExtent(tag.wireType, s) == Some(|s|)
    ensures AfterTag(d, st, tag, s + more) == AfterTag(d, st, tag, s)
    ensures AfterTag(d, st, tag, s).Some? ==> AfterTag(d, st, tag, s).value.1 == |s|
  {
    match FindFrom(d, tag.number, 0)
    case None => ExtentOfFieldExtends(tag.wireType, s, more);
    case Some(i) => FieldWithin(d, st, i, tag.wireType, s, more);
  }

  lemma {:induction false} StepWithin(d: MsgDesc, st: DState, u: seq<u8>, more: seq<u8>)
    requires |st.msg| == |d.fields| && IsField(u)
    ensures Step(d, u + more, st) == Step(d, u, st)
    ensures Step(d, u, st).Some? ==> Step(d, u, st).value.1 == |u|
  {
    var (tag, n) := ReadTag(u).value;
    VarintExtends(u, more);
    assert (u + more)[n..] == u[n..] + more;
    AfterTagWithin(d, st, tag, u[n..], more);
    StepBy(d, u, st, tag, n, u[n..]);
    StepBy(d, u + more, st, tag, n, u[n..] + more);
  }

  /** The loop on a whole field and the rest. */
  lemma {:induction false} LoopOnField(d: MsgDesc, st: DState, u: seq<u8>, more: seq<u8>)
    requires |st.msg| == |d.fields| && IsField(u)
    ensures DecLoop(d, u + more, st)
         == match Step(d, u, st) case None => None case Some((st', _)) => DecLoop(d, more, st')
  {
    StepWithin(d, st, u, more);
    assert (u + more)[|u|..] == more;
  }

  // ---- Fields that the descriptor does not have ------------------------------------------------------------

  function Flat(fields: seq<seq<u8>>): seq<u8> {
    if fields == [] then [] else fields[0] + Flat(fields[1..])
  }

  /** Without the fields that the descriptor does not have. */
  function Known(d: MsgDesc, fields: seq<seq<u8>>): seq<seq<u8>> {
    if fields == [] then []
    else if IsUnknown(d, fields[0]) then Known(d, fields[1..])
    else [fields[0]] + Known(d, fields[1..])
  }

  ghost predicate AllFields(fields: seq<seq<u8>>) { forall u :: u in fields ==> IsField(u) }

  lemma {:induction false} LoopIgnoresUnknown(d: MsgDesc, fields: seq<seq<u8>>, st: DState)
    requires |st.msg| == |d.fields| && AllFields(fields)
    ensures DecLoop(d, Flat(fields), st) == DecLoop(d, Flat(Known(d, fields)), st)
    decreases |fields|
  {
    if fields != [] {
      var u, rest := fields[0], fields[1..];
      if IsUnknown(d, u) {
        UnknownOnFront(d, st, u, Flat(rest));
        LoopIgnoresUnknown(d, rest, st);
      } else {
        FlatFirst(u, Known(d, rest));
        LoopOnField(d, st, u, Flat(rest));
        LoopOnField(d, st, u, Flat(Known(d, rest)));
        if Step(d, u, st).Some? { LoopIgnoresUnknown(d, rest, Step(d, u, st).value.0); }
      }
    }
  }

  lemma FlatFirst(u: seq<u8>, rest: seq<seq<u8>>)
    ensures Flat([u] + rest) == u + Flat(rest)
  {
    assert ([u] + rest)[1..] == rest;
  }

  lemma {:induction false} UnknownOnFront(d: MsgDesc, st: DState, u: seq<u8>, more: seq<u8>)
    requires |st.msg| == |d.fields| && IsUnknown(d, u)
    ensures DecLoop(d, u + more, st) == DecLoop(d, more, st)
  {
    UnknownIsSkipped(d, u, st);
    LoopSplits(d, u, more, st);
  }

  /** For any input made of whole fields, decoding with and without those that the descriptor does not have is the same:
      both fail, or both give the same structure. */
  lemma {:induction false} UnknownFieldsIgnored(d: MsgDesc, fields: seq<seq<u8>>, dest: seq<Slot>)
    requires |dest| == |d.fields| && AllFields(fields)
    ensures Decode(d, Flat(fields), dest) == Decode(d, Flat(Known(d, fields)), dest)
  {
    LoopIgnoresUnknown(d, fields, Start(InitMsg(d, dest)));
  }

  /** So a reader gets every field it knows from an encoding with any fields it does not know among the others, at every
      place where a field can stand: between fields, and between the elements of an array. */
  lemma {:induction false} ForwardCompatible(d: MsgDesc, m: seq<Slot>, dest: seq<Slot>, fields: seq<seq<u8>>)
    requires GoodDesc(d) && SortedDesc(d) && Typed(d, m) && Typed(d, dest)
    requires EncMsg(d, m).Some? && |EncMsg(d, m).value| < TWO32
    requires AllFields(fields) && Flat(Known(d, fields)) == EncMsg(d, m).value
    ensures var r := Decode(d, Flat(fields), dest); r.Some? && PbRoundTrip.SameMsg(d, m, r.value)
  {
    PbRoundTrip.MessageRoundTrip(d, m, dest);
    UnknownFieldsIgnored(d, fields, dest);
  }

  // ---- An encoding is made of whole fields -----------------------------------------------------------------

  /** s is made of whole fields, all of which the descriptor has. */
  ghost predicate MadeOf(d: MsgDesc, fields: seq<seq<u8>>, s: seq<u8>) {
    AllFields(fields) && Known(d, fields) == fields && Flat(fields) == s
  }

  lemma {:induction false} MadeOfBoth(d: MsgDesc, a: seq<seq<u8>>, s: seq<u8>, b: seq<seq<u8>>, t: seq<u8>)
    requires MadeOf(d, a, s) && MadeOf(d, b, t)
    ensures MadeOf(d, a + b, s + t)
    decreases |a|
  {
    if a == [] {
      assert a + b == b && s + t == t;
    } else {
      KnownFirst(d, a);
      MadeOfBoth(d, a[1..], Flat(a[1..]), b, t);
      assert (a + b)[1..] == a[1..] + b && (a + b)[0] == a[0];
      assert s + t == a[0] + (Flat(a[1..]) + t);
    }
  }

  lemma {:induction false} KnownNoLonger(d: MsgDesc, a: seq<seq<u8>>)
    ensures |Known(d, a)| <= |a|
  {
    if a != [] { KnownNoLonger(d, a[1..]); }
  }

  lemma KnownFirst(d: MsgDesc, a: seq<seq<u8>>)
    requires a != [] && Known(d, a) == a
    ensures !IsUnknown(d, a[0]) && Known(d, a[1..]) == a[1..]
  {
    KnownNoLonger(d, a[1..]);
    if !IsUnknown(d, a[0]) {
      assert ([a[0]] + Known(d, a[1..]))[1..] == Known(d, a[1..]);
    }
  }

  lemma MadeOfOne(d: MsgDesc, u: seq<u8>)
    requires IsField(u) && !IsUnknown(d, u)
    ensures MadeOf(d, [u], u)
  {
    assert Flat([]) == [] && Flat([u]) == u + [];
  }

  /** A tag of the descriptor and data of its extent. */
  lemma RecordIsField(d: MsgDesc, i: nat, wt: nat, p: seq<u8>)
    requires GoodDesc(d) && i < |d.fields| && wt < 8 && FieldExtent(wt, p) == Some(|p|)
    ensures var u := TagBytes(Tag(d.fields[i].tag, wt)) + p; MadeOf(d, [u], u)
  {
    assert GoodField(d.fields[i]);
    var tag := Tag(d.fields[i].tag, wt);
    var u := TagBytes(tag) + p;
    TagRoundTrip(tag, p);
    assert u[|TagBytes(tag)|..] == p;
    MadeOfOne(d, u);
  }

  lemma VarintExtent(v: nat)
    ensures FieldExtent(WT_VARINT, VarintBytes(v)) == Some(|VarintBytes(v)|)
  {
    CanonicalShape(v);
    ExtentIs(VarintBytes(v), |VarintBytes(v)|);
  }

  lemma BlockExtent(b: seq<u8>)
    requires |b| < TWO32
    ensures FieldExtent(WT_STRING, LengthPrefixed(b)) == Some(|LengthPrefixed(b)|)
  {
    BlockRoundTrip(b, []);
    assert LengthPrefixed(b) + [] == LengthPrefixed(b);
  }

  lemma {:induction false} ScalarExtent(f: Field, n: int)
    requires f.ltype.Packable() && TypedValue(f, VInt(n)) && EncScalar(f, n).Some?
    ensures FieldExtent(WireType(f.ltype), EncScalar(f, n).value) == Some(|EncScalar(f, n).value|)
  {
    match f.ltype {
      case LBool | LUVarint => VarintExtent(n);
      case LVarint => VarintExtent(ToU64(n));
      case LSVarint => VarintExtent(ZigZag(n));
      case LFixed32 | LFixed64 =>
    }
  }

  lemma {:induction false} ValueExtent(f: Field, v: Value)
    requires TypedValue(f, v) && EncValue(f, v).Some? && |EncValue(f, v).value| < TWO32
    ensures FieldExtent(WireType(f.ltype), EncValue(f, v).value) == Some(|EncValue(f, v).value|)
  {
    match f.ltype {
      case LBytes | LString | LFixedBytes => BlockExtent(v.b);
      case LSubmsg(sub) => BlockExtent(EncMsg(sub, v.slots).value);
      case _ => ScalarExtent(f, v.n);
    }
  }

  lemma {:induction false} ItemIsField(d: MsgDesc, i: nat, v: Value)
    requires GoodDesc(d) && i < |d.fields| && TypedValue(d.fields[i], v)
    requires EncTagged(d.fields[i], v).Some? && |EncTagged(d.fields[i], v).value| < TWO32
    ensures MadeOf(d, [EncTagged(d.fields[i], v).value], EncTagged(d.fields[i], v).value)
  {
    var f := d.fields[i];
    ValueExtent(f, v);
    RecordIsField(d, i, WireType(f.ltype), EncValue(f, v).value);
  }

  lemma {:induction false} ItemsAreFields(d: MsgDesc, i: nat, items: seq<Value>, k: nat) returns (fields: seq<seq<u8>>)
    requires GoodDesc(d) && i < |d.fields| && TypedItems(d.fields[i], items) && k <= |items|
    requires EncItems(d.fields[i], items, k).Some? && |EncItems(d.fields[i], items, k).value| < TWO32
    ensures MadeOf(d, fields, EncItems(d.fields[i], items, k).value)
    decreases k
  {
    var f := d.fields[i];
    if k == 0 {
      fields := [];
    } else {
      var e := EncTagged(f, items[k - 1]).value;
      fields := ItemsAreFields(d, i, items, k - 1);
      ItemIsField(d, i, items[k - 1]);
      MadeOfBoth(d, fields, EncItems(f, items, k - 1).value, [e], e);
      fields := fields + [e];
    }
  }

  lemma {:induction false} PackedIsField(d: MsgDesc, i: nat, items: seq<Value>)
    requires GoodDesc(d) && i < |d.fields| && d.fields[i].ltype.Packable() && TypedItems(d.fields[i], items)
    requires EncPacked(d.fields[i], items).Some? && |EncPacked(d.fields[i], items).value| < TWO32
    ensures MadeOf(d, [EncPacked(d.fields[i], items).value], EncPacked(d.fields[i], items).value)
  {
    var p := Payload(d.fields[i], items, |items|).value;
    BlockExtent(p);
    RecordIsField(d, i, WT_STRING, LengthPrefixed(p));
  }

  lemma {:induction false} SlotIsFields(d: MsgDesc, i: nat, s: Slot) returns (fields: seq<seq<u8>>)
    requires GoodDesc(d) && i < |d.fields| && TypedSlot(d.fields[i], s)
    requires EncSlot(d, d.fields[i], s).Some? && |EncSlot(d, d.fields[i], s).value| < TWO32
    ensures MadeOf(d, fields, EncSlot(d, d.fields[i], s).value)
  {
    var f, e := d.fields[i], EncSlot(d, d.fields[i], s).value;
    if e == [] {
      fields := [];
    } else if !IsArray(f) {
      ItemIsField(d, i, s.v);
      fields := [e];
    } else if f.ltype.Packable() {
      PackedIsField(d, i, s.items);
      fields := [e];
    } else {
      fields := ItemsAreFields(d, i, s.items, |s.items|);
    }
  }

  /** What the encoder writes is made of whole fields of its descriptor. */
  lemma {:induction false} EncodingIsFields(d: MsgDesc, m: seq<Slot>, k: nat) returns (fields: seq<seq<u8>>)
    requires GoodDesc(d) && Typed(d, m) && k <= |m|
    requires EncUpTo(d, m, k).Some? && |EncUpTo(d, m, k).value| < TWO32
    ensures MadeOf(d, fields, EncUpTo(d, m, k).value)
    decreases k
  {
    if k == 0 {
      fields := [];
    } else {
      assert TypedSlot(d.fields[k - 1], m[k - 1]);
      fields := EncodingIsFields(d, m, k - 1);
      var last := SlotIsFields(d, k - 1, m[k - 1]);
      MadeOfBoth(d, fields, EncUpTo(d, m, k - 1).value, last, EncSlot(d, d.fields[k - 1], m[k - 1]).value);
      fields := fields + last;
    }
  }
}
