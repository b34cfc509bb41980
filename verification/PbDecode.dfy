/** The decoder over input streams. The structure being filled is passed in and returned as a value. */
module PbDecode {
  import opened Words
  import opened PbVarint
  import opened PbStream
  import opened PbModel
  import opened PbDecodeSpec
  import PbEncode

  // ---- Defaults -------------------------------------------------------------------------------------

  method SetToDefaults(d: MsgDesc, m: seq<Slot>) returns (r: seq<Slot>)
    requires |m| == |d.fields|
    ensures r == InitMsg(d, m)
    decreases d
  {
    r := m;
    var i := 0;
    while i < |d.fields|
      invariant i <= |d.fields| == |r|
      invariant forall j :: 0 <= j < i ==> r[j] == InitSlot(d.fields[j], m[j])
      invariant forall j :: i <= j < |r| ==> r[j] == m[j]
    {
      var f := d.fields[i];
      match f.htype {
        case Optional =>
          var v := SetValueToDefault(f, DataOf(m[i]));
          r := r[i := Opt(false, v)];
        case Repeated => r := r[i := Rep([])];
        case FixArray =>
        case Oneof(_) => r := r[i := Member(false, DataOf(m[i]))];
        case Required | Singular =>
          var v := SetValueToDefault(f, DataOf(m[i]));
          r := r[i := Single(v)];
      }
      i := i + 1;
    }
  }

  method SetValueToDefault(f: Field, v: Value) returns (r: Value)
    ensures r == InitValue(f, v)
    decreases f, 0
  {
    match f.ltype {
      case LSubmsg(sub) =>
        if NeedsInit(sub) {
          var m := SetToDefaults(sub, SlotsOf(sub, v));
          r := VMsg(m);
        } else {
          r := VMsg(ZeroMsg(sub));
        }
      case _ => r := f.dflt;
    }
  }

  // ---- Items ------------------------------------------------------------------------------------------

  /** A value narrowed to n bytes as a C cast does. */
  function CastSigned(v: int, n: nat): int
    requires IntSize(n)
  {
    var w := v % IntRange(n);
    if w >= IntRange(n) / 2 then w - IntRange(n) else w
  }

  lemma CastKeeps(v: int, n: nat)
    requires IntSize(n) && -0x8000_0000_0000_0000 <= v < 0x8000_0000_0000_0000
    ensures CastSigned(v, n) == v <==> -(IntRange(n) / 2) <= v < IntRange(n) / 2
  {}

  lemma CastUnsignedKeeps(v: nat, n: nat)
    requires IntSize(n)
    ensures v % IntRange(n) == v <==> v < IntRange(n)
  {}

  method DecVarint(stream: IStream, f: Field) returns (ok: bool, r: Value)
    requires stream.Valid() && GoodField(f) && (f.ltype.LVarint? || f.ltype.LUVarint? || f.ltype.LSVarint?)
    modifies stream
    ensures stream.Decoded(ok, r, DecVarintValue(f, old(stream.rest)))
  {
    r := VInt(0);
    ghost var s := stream.rest;
    if f.ltype.LUVarint? {
      var value;
      ok, value := DecodeVarint(stream);
      if !ok { return; }
      var clamped := value % IntRange(f.dataSize);
      CastUnsignedKeeps(value, f.dataSize);
      if clamped != value { return false, r; }
      r := VInt(clamped);
    } else {
      var svalue;
      if f.ltype.LSVarint? {
        ok, svalue := DecodeSvarint(stream);
        if !ok { return; }
      } else {
        var value;
        ok, value := DecodeVarint(stream);
        if !ok { return; }
        svalue := if f.dataSize == 8 then ToI64(value) else ToI32(value);
      }
      var clamped := CastSigned(svalue, f.dataSize);
      CastKeeps(svalue, f.dataSize);
      if clamped != svalue { return false, r; }
      r := VInt(clamped);
    }
  }

  method DecBytes(stream: IStream, f: Field, start: Value) returns (ok: bool, r: Value)
    requires stream.Valid() && GoodField(f) && f.ltype.LBytes?
    modifies stream
    ensures stream.Decoded(ok, r, DecValue(f, old(stream.rest), start))
  {
    r := start;
    ghost var s := stream.rest;
    var size, data;
    ok, size := DecodeVarint32(stream);
    if !ok { return; }
    if size > PB_SIZE_MAX { return false, r; }
    var allocSize := size + BYTES_HEADER;
    if allocSize > f.dataSize { return false, r; }
    ghost var n := stream.state - old(stream.state);
    ok, data := stream.Read(size);
    TakeOfDrop(s, n, size);
    r := VBytes(data);
  }

  method DecString(stream: IStream, f: Field, start: Value) returns (ok: bool, r: Value)
    requires stream.Valid() && GoodField(f) && f.ltype.LString?
    modifies stream
    ensures stream.Decoded(ok, r, DecValue(f, old(stream.rest), start))
  {
    r := start;
    ghost var s := stream.rest;
    var size, data;
    ok, size := DecodeVarint32(stream);
    if !ok { return; }
    if size == TWO32 - 1 { return false, r; }
    var allocSize := size + 1;
    if allocSize > f.dataSize { return false, r; }
    ghost var n := stream.state - old(stream.state);
    ok, data := stream.Read(size);
    TakeOfDrop(s, n, size);
    r := VBytes(CString(data));
  }

  method DecFixedLengthBytes(stream: IStream, f: Field, start: Value) returns (ok: bool, r: Value)
    requires stream.Valid() && GoodField(f) && f.ltype.LFixedBytes?
    modifies stream
    ensures stream.Decoded(ok, r, DecValue(f, old(stream.rest), start))
  {
    r := start;
    ghost var s := stream.rest;
    var size, data;
    ok, size := DecodeVarint32(stream);
    if !ok { return; }
    if size > PB_SIZE_MAX { return false, r; }
    if size == 0 { return true, VBytes(seq(f.dataSize, _ => 0)); }
    if size != f.dataSize { return false, r; }
    ghost var n := stream.state - old(stream.state);
    ok, data := stream.Read(f.dataSize);
    TakeOfDrop(s, n, size);
    r := VBytes(data);
  }

  /** The substream limits the submessage; start is the structure it is decoded into. */
  method DecSubmessage(stream: IStream, f: Field, start: Value) returns (ok: bool, r: Value)
    requires stream.Valid() && GoodField(f) && f.ltype.LSubmsg?
    modifies stream
    ensures stream.Decoded(ok, r, DecValue(f, old(stream.rest), start))
    decreases f, 0
  {
    r := start;
    var substream, m, closed;
    ok, substream := MakeStringSubstream(stream);
    if !ok { return; }
    ghost var left, state := substream.bytesLeft, substream.state;
    ok, m := DecodeInner(substream, f.ltype.sub, SlotsOf(f.ltype.sub, start));
    closed := CloseStringSubstream(stream, substream);
    if !closed || !ok { return false, r; }
    SliceOfSlice(stream.buf, old(stream.state), old(stream.state + stream.bytesLeft),
                 stream.state - old(stream.state), old(stream.bytesLeft));
    r := VMsg(m);
  }

  method DecodeBasicField(stream: IStream, wireType: nat, f: Field, start: Value) returns (ok: bool, r: Value)
    requires stream.Valid() && GoodField(f)
    requires wireType == WT_PACKED ==> f.ltype.Packable()
    modifies stream
    ensures stream.Decoded(ok, r, if wireType == WT_PACKED || wireType == PbEncode.WireType(f.ltype)
                                  then DecValue(f, old(stream.rest), start) else None)
    decreases f, 1
  {
    r := start;
    match f.ltype {
      case LBool =>
        if wireType != WT_VARINT && wireType != WT_PACKED { return false, r; }
        var value;
        ok, value := DecodeVarint32(stream);
        r := VInt(if value != 0 then 1 else 0);
      case LVarint | LUVarint | LSVarint =>
        if wireType != WT_VARINT && wireType != WT_PACKED { return false, r; }
        ok, r := DecVarint(stream, f);
      case LFixed32 =>
        if wireType != WT_32BIT && wireType != WT_PACKED { return false, r; }
        var value;
        ok, value := DecodeFixed32(stream);
        r := VInt(value);
      case LFixed64 =>
        if wireType != WT_64BIT && wireType != WT_PACKED { return false, r; }
        var value;
        ok, value := DecodeFixed64(stream);
        r := VInt(value);
      case LBytes =>
        if wireType != WT_STRING { return false, r; }
        ok, r := DecBytes(stream, f, start);
      case LString =>
        if wireType != WT_STRING { return false, r; }
        ok, r := DecString(stream, f, start);
      case LSubmsg(_) =>
        if wireType != WT_STRING { return false, r; }
        ok, r := DecSubmessage(stream, f, start);
      case LFixedBytes =>
        if wireType != WT_STRING { return false, r; }
        ok, r := DecFixedLengthBytes(stream, f, start);
    }
  }

  // ---- Fields -----------------------------------------------------------------------------------------

  method DecodePacked(substream: IStream, f: Field, items0: seq<Value>, c0: nat)
    returns (ok: bool, items: seq<Value>, c: nat)
    requires substream.Valid() && GoodField(f) && f.ltype.Packable()
    modifies substream
    ensures substream.Valid() && substream.state + substream.bytesLeft <= old(substream.state + substream.bytesLeft)
    ensures ok <==> DecPacked(f, old(substream.rest), items0, c0).Some?
    ensures ok ==> (items, c) == DecPacked(f, old(substream.rest), items0, c0).value
    ensures ok ==> substream.bytesLeft == 0 && substream.state == old(substream.state + substream.bytesLeft)
    decreases f, 2
  {
    ghost var s := substream.rest;
    items, c := items0, c0;
    while substream.bytesLeft > 0 && c < f.arraySize
      invariant substream.Valid() && substream.state + substream.bytesLeft == old(substream.state + substream.bytesLeft)
      invariant DecPacked(f, s, items0, c0) == DecPacked(f, substream.rest, items, c)
      decreases substream.bytesLeft
    {
      var status, v;
      ghost var rest := substream.rest;
      status, v := DecodeBasicField(substream, WT_PACKED, f, ItemStart(f, items, c));
      if !status { return false, items, c; }
      assert substream.rest == rest[DecValue(f, rest, ItemStart(f, items, c)).value.1..];
      items := PutItem(items, c, v);
      c := c + 1;
    }
    ok := substream.bytesLeft == 0;
  }

  /** A packed block: a substream of its length is decoded to its end. */
  method DecodePackedBlock(stream: IStream, f: Field, items0: seq<Value>, c0: nat)
    returns (ok: bool, items: seq<Value>, c: nat)
    requires stream.Valid() && GoodField(f) && f.ltype.Packable()
    modifies stream
    ensures stream.Decoded(ok, (items, c), DecPackedBlock(f, old(stream.rest), items0, c0))
    decreases f, 3
  {
    var substream, closed;
    items, c := items0, c0;
    ok, substream := MakeStringSubstream(stream);
    if !ok { return; }
    ok, items, c := DecodePacked(substream, f, items, c);
    if !ok { return; }
    closed := CloseStringSubstream(stream, substream);
    SliceOfSlice(stream.buf, old(stream.state), old(stream.state + stream.bytesLeft),
                 stream.state - old(stream.state), old(stream.bytesLeft));
  }

  /** The HTYPE_REPEATED case: a packed block, or one element. */
  method DecodeRepeatedField(stream: IStream, d: MsgDesc, st: DState, i: nat, wireType: nat)
        returns (ok: bool, r: DState)
    requires stream.Valid() && GoodDesc(d) && |st.msg| == |d.fields| && i < |d.fields| && wireType < 8
    modifies stream
    ensures stream.Decoded(ok, r, DecArray(d, st, i, wireType, old(stream.rest)))
    decreases d, 0
  {
    r := st;
    var f := d.fields[i];
    assert f < d;
    var c := Count(d, st, i);
    var items := ItemsOf(st.msg[i]);
    if wireType == WT_STRING && f.ltype.Packable() {
      ok, items, c := DecodePackedBlock(stream, f, items, c);
      if !ok { return; }
    } else {
      if c >= f.arraySize { return false, r; }
      var v;
      ok, v := DecodeBasicField(stream, wireType, f, ItemStart(f, items, c));
      if !ok { return; }
      items, c := PutItem(items, c, v), c + 1;
    }
    r := PutArray(d, st, i, items, c);
  }

  method DecodeStaticField(stream: IStream, d: MsgDesc, st: DState, i: nat, wireType: nat) returns (ok: bool, r: DState)
    requires stream.Valid() && GoodDesc(d) && |st.msg| == |d.fields| && i < |d.fields| && wireType < 8
    modifies stream
    ensures stream.Decoded(ok, r, if IsArray(d.fields[i]) then DecArray(d, st, i, wireType, old(stream.rest))
                                  else DecSingle(d, st, i, wireType, old(stream.rest)))
    decreases d, 1
  {
    r := st;
    var f := d.fields[i];
    assert f < d;
    if IsArray(f) {
      ok, r := DecodeRepeatedField(stream, d, st, i, wireType);
    } else {
      var v;
      ok, v := DecodeBasicField(stream, wireType, f, FieldStart(f, st.msg[i]));
      if !ok { return; }
      r := st.(msg := PutSingle(d, st.msg, i, v));
    }
  }

  /** A field with a descriptor: the count of a fixed array and the presence of a required field are
      noted before its data is decoded. */
  method DecodeField(stream: IStream, d: MsgDesc, st: DState, i: nat, wireType: nat) returns (ok: bool, r: DState)
    requires stream.Valid() && GoodDesc(d) && |st.msg| == |d.fields| && i < |d.fields| && wireType < 8
    modifies stream
    ensures stream.Decoded(ok, r, DecField(d, st, i, wireType, old(stream.rest)))
    decreases d, 2
  {
    r := st;
    if d.fields[i].htype.FixArray? {
      if r.fc != Some(i) {
        if r.fc.Some? && r.fc.value < |d.fields| && r.fcSize != d.fields[r.fc.value].arraySize { return false, r; }
        r := r.(fc := Some(i), fcSize := 0);
      }
    }
    if d.fields[i].htype.Required? && RequiredBefore(d, i) < PB_MAX_REQUIRED_FIELDS {
      r := r.(seen := r.seen + {RequiredBefore(d, i)});
    }
    assert Enter(d, st, i) == Some(r);
    ok, r := DecodeStaticField(stream, d, r, i, wireType);
  }

  method DecodeAfterTag(stream: IStream, d: MsgDesc, st: DState, tag: Tag) returns (ok: bool, r: DState)
    requires stream.Valid() && GoodDesc(d) && |st.msg| == |d.fields| && tag.wireType < 8
    modifies stream
    ensures stream.Decoded(ok, r, AfterTag(d, st, tag, old(stream.rest)))
    decreases d, 3
  {
    r := st;
    if tag.number == 0 { return false, r; }
    var found := FindFrom(d, tag.number, 0);
    if found.None? {
      ok := SkipField(stream, tag.wireType);
    } else {
      ok, r := DecodeField(stream, d, st, found.value, tag.wireType);
    }
  }

  method DecodeInner(stream: IStream, d: MsgDesc, m: seq<Slot>) returns (ok: bool, r: seq<Slot>)
    requires stream.Valid() && GoodDesc(d) && |m| == |d.fields|
    modifies stream
    ensures stream.Valid() && stream.state + stream.bytesLeft <= old(stream.state + stream.bytesLeft)
    ensures ok <==> DecMsg(d, old(stream.rest), m).Some?
    ensures ok ==> r == DecMsg(d, old(stream.rest), m).value
    ensures ok ==> stream.bytesLeft == 0 && stream.state == old(stream.state + stream.bytesLeft)
    decreases d, 4
  {
    ghost var s := stream.rest;
    r := m;
    var st := Start(m);
    ghost var rest, target := s, DecLoop(d, s, st);
    var more, tag, eof := DecodeTag(stream);
    while more
      invariant stream.Valid() && stream.state + stream.bytesLeft <= old(stream.state + stream.bytesLeft)
      invariant |st.msg| == |d.fields| && target == DecLoop(d, rest, st)
      invariant eof <==> rest == []
      invariant more <==> rest != [] && ReadTag(rest).Some?
      invariant more ==>
            ReadTag(rest).value.0 == tag && stream.rest == rest[ReadTag(rest).value.1..] && tag.wireType < 8
      invariant more || eof ==> stream.state + stream.bytesLeft == old(stream.state + stream.bytesLeft)
      invariant eof ==> stream.bytesLeft == 0
      decreases |rest|
    {
      rest := StepIs(d, rest, st, tag, stream.rest);
      ok, st := DecodeAfterTag(stream, d, st, tag);
      if !ok { return; }
      assert stream.rest == rest;
      more, tag, eof := DecodeTag(stream);
    }
    if !eof { return false, r; }
    if st.fc.Some? && st.fc.value < |d.fields| && st.fcSize != d.fields[st.fc.value].arraySize { return false, r; }
    var all := CheckRequired(d, st.seen);
    if !all { return false, r; }
    r := st.msg;
    ok := true;
  }

  /** pb_decode: the structure is set to its defaults, then decoded into. */
  method DecodeMessage(stream: IStream, d: MsgDesc, dest: seq<Slot>) returns (ok: bool, r: seq<Slot>)
    requires stream.Valid() && GoodDesc(d) && |dest| == |d.fields|
    modifies stream
    ensures stream.Valid() && ok == Decode(d, old(stream.rest), dest).Some?
    ensures ok ==> r == Decode(d, old(stream.rest), dest).value
    ensures ok ==> stream.bytesLeft == 0 && stream.state == old(stream.state + stream.bytesLeft)
  {
    r := SetToDefaults(d, dest);
    ok, r := DecodeInner(stream, d, r);
  }

  lemma LoopStep(d: MsgDesc, s: seq<u8>, st: DState)
    requires |st.msg| == |d.fields| && s != []
    ensures Step(d, s, st).None? ==> DecLoop(d, s, st).None?
    ensures Step(d, s, st).Some? ==>
              DecLoop(d, s, st) == DecLoop(d, s[Step(d, s, st).value.1..], Step(d, s, st).value.0)
  {}

  lemma LoopStepTo(d: MsgDesc, s: seq<u8>, st: DState, st': DState, n: nat, next: seq<u8>)
    requires |st.msg| == |d.fields| && s != [] && Step(d, s, st) == Some((st', n)) && n <= |s| && next == s[n..]
    ensures DecLoop(d, s, st) == DecLoop(d, next, st')
  {
    LoopStep(d, s, st);
  }

  lemma DropTwice(s: seq<u8>, n: nat, k: nat)
    requires n <= |s| && k <= |s| - n
    ensures s[n..][k..] == s[n + k..]
  {}

  /** next is the input after the field whose tag was just read. */
  lemma StepIs(d: MsgDesc, s: seq<u8>, st: DState, tag: Tag, rest: seq<u8>) returns (next: seq<u8>)
    requires |st.msg| == |d.fields| && s != [] && ReadTag(s).Some? && ReadTag(s).value.0 == tag
          && rest == s[ReadTag(s).value.1..]
    ensures AfterTag(d, st, tag, rest).None? ==> DecLoop(d, s, st).None?
    ensures AfterTag(d, st, tag, rest).Some? ==>
              var (st', k) := AfterTag(d, st, tag, rest).value;
              next == rest[k..] && |next| < |s| && DecLoop(d, s, st) == DecLoop(d, next, st')
  {
    var n := ReadTag(s).value.1;
    next := [];
    StepBy(d, s, st, tag, n, rest);
    var a := AfterTag(d, st, tag, rest);
    if a.None? {
      LoopStep(d, s, st);
    } else {
      next := rest[a.value.1..];
      DropTwice(s, n, a.value.1);
      LoopStepTo(d, s, st, a.value.0, n + a.value.1, next);
    }
  }

  method CheckRequired(d: MsgDesc, seen: set<nat>) returns (ok: bool)
    ensures ok == AllRequired(d, seen)
  {
    var reqFieldCount := RequiredBefore(d, |d.fields|);
    if reqFieldCount > PB_MAX_REQUIRED_FIELDS { reqFieldCount := PB_MAX_REQUIRED_FIELDS; }
    var q := 0;
    while q < reqFieldCount
      invariant q <= reqFieldCount && forall j :: 0 <= j < q ==> j in seen
    {
      if q !in seen { return false; }
      q := q + 1;
    }
    ok := true;
  }
}
