/** The encoder: what a message is written as, and the two-pass stream code that writes it. */
module PbEncode {
  import opened Words
  import opened PbVarint
  import opened PbStream
  import opened PbModel

  // ---- Specification ----------------------------------------------------------------------------

  function WireType(t: LType): nat {
    match t
    case LBool | LVarint | LUVarint | LSVarint => WT_VARINT
    case LFixed32 => WT_32BIT
    case LFixed64 => WT_64BIT
    case LBytes | LString | LFixedBytes | LSubmsg(_) => WT_STRING
  }

  /** An item of a packable type. */
  function EncScalar(f: Field, n: int): Option<seq<u8>>
    requires f.ltype.Packable() && TypedValue(f, VInt(n))
  {
    match f.ltype
    case LBool => Some(VarintBytes(n))
    case LVarint => if IntSize(f.dataSize) then Some(VarintBytes(ToU64(n))) else None
    case LUVarint => if IntSize(f.dataSize) then Some(VarintBytes(n)) else None
    case LSVarint => if IntSize(f.dataSize) then Some(VarintBytes(ZigZag(n))) else None
    case LFixed32 => Some(LeBytes(n, 4))
    case LFixed64 => Some(LeBytes(n, 8))
  }

  /** An item without its tag. */
  function EncValue(f: Field, v: Value): Option<seq<u8>>
    requires TypedValue(f, v)
    decreases f, 0
  {
    match f.ltype
    case LBytes => if |v.b| > f.dataSize - BYTES_HEADER then None else Some(LengthPrefixed(v.b))
    case LString => if |v.b| >= f.dataSize then None else Some(LengthPrefixed(v.b))
    case LFixedBytes => Some(LengthPrefixed(v.b))
    case LSubmsg(sub) =>
      (match EncMsg(sub, v.slots) case None => None case Some(b) => Some(LengthPrefixed(b)))
    case _ => EncScalar(f, v.n)
  }

  function FieldTag(f: Field): seq<u8> { TagBytes(Tag(f.tag, WireType(f.ltype))) }

  function EncTagged(f: Field, v: Value): Option<seq<u8>>
    requires TypedValue(f, v)
    decreases f, 1
  {
    Cat(Some(FieldTag(f)), EncValue(f, v))
  }

  /** The first k items, each with its tag. */
  function EncItems(f: Field, items: seq<Value>, k: nat): Option<seq<u8>>
    requires TypedItems(f, items) && k <= |items|
    decreases f, 2, k
  {
    if k == 0 then Some([]) else Cat(EncItems(f, items, k - 1), EncTagged(f, items[k - 1]))
  }

  /** The first k items without tags. */
  function Payload(f: Field, items: seq<Value>, k: nat): Option<seq<u8>>
    requires f.ltype.Packable() && TypedItems(f, items) && k <= |items|
  {
    if k == 0 then Some([])
          else assert TypedValue(f, items[k - 1]); Cat(Payload(f, items, k - 1), EncScalar(f, items[k - 1].n))
  }

  function EncPacked(f: Field, items: seq<Value>): Option<seq<u8>>
    requires f.ltype.Packable() && TypedItems(f, items)
  {
    match Payload(f, items, |items|)
    case None => None
    case Some(p) => Some(TagBytes(Tag(f.tag, WT_STRING)) + LengthPrefixed(p))
  }

  function EncArray(f: Field, items: seq<Value>): Option<seq<u8>>
    requires TypedItems(f, items)
    decreases f, 3
  {
    if |items| == 0 then Some([])
    else if |items| > f.arraySize then None
    else if f.ltype.Packable() then EncPacked(f, items)
    else EncItems(f, items, |items|)
  }

  /** Whether the proto3 rule omits this field. */
  predicate IsDefault(d: MsgDesc, f: Field, s: Slot)
    requires TypedSlot(f, s)
    decreases f, 4
  {
    match f.htype
    case Required => false
    case Repeated => |s.items| == 0
    case FixArray => f.arraySize == 0
    case Oneof(_) => !s.chosen
    case Optional => !s.has
    case Singular =>
      if d.hasDefaults then false
      else match f.ltype
           case LBytes | LString => s.v.b == []
           case LFixedBytes => f.dataSize == 0
           case LSubmsg(sub) => AllDefault(sub, s.v.slots)
           case _ => assert TypedValue(f, s.v); s.v.n == 0
  }

  predicate AllDefault(d: MsgDesc, m: seq<Slot>)
    requires Typed(d, m)
    decreases d, 4
  {
    forall i :: 0 <= i < |m| ==> IsDefault(d, d.fields[i], m[i])
  }

  /** One field of a message: nothing, an item, or an array. */
  function EncSlot(d: MsgDesc, f: Field, s: Slot): Option<seq<u8>>
    requires TypedSlot(f, s)
    decreases f, 5
  {
    match f.htype
    case Required => EncTagged(f, s.v)
    case Optional => if s.has then EncTagged(f, s.v) else Some([])
    case Singular => if IsDefault(d, f, s) then Some([]) else EncTagged(f, s.v)
    case Oneof(_) => if s.chosen then EncTagged(f, s.v) else Some([])
    case Repeated | FixArray => EncArray(f, s.items)
  }

  /** The fields before number k, in order. */
  function EncUpTo(d: MsgDesc, m: seq<Slot>, k: nat): Option<seq<u8>>
    requires Typed(d, m) && k <= |m|
    decreases d, 5, k
  {
    if k == 0 then Some([]) else Cat(EncUpTo(d, m, k - 1), EncSlot(d, d.fields[k - 1], m[k - 1]))
  }

  function EncMsg(d: MsgDesc, m: seq<Slot>): Option<seq<u8>>
    requires Typed(d, m)
    decreases d, 6
  {
    EncUpTo(d, m, |m|)
  }

  // ---- The encoder ------------------------------------------------------------------------------

  method EncodeTagForField(stream: OStream, f: Field) returns (ok: bool)
    requires stream.Valid() && f.tag < 0x2000_0000
    modifies stream, stream.sink
    ensures stream.Emitted(ok, Some(FieldTag(f)))
  {
    var wireType;
    match f.ltype {
      case LBool | LVarint | LUVarint | LSVarint => wireType := WT_VARINT;
      case LFixed32 => wireType := WT_32BIT;
      case LFixed64 => wireType := WT_64BIT;
      case LBytes | LString | LFixedBytes | LSubmsg(_) => wireType := WT_STRING;
    }
    ok := EncodeTag(stream, wireType, f.tag);
  }

  method EncBool(stream: OStream, f: Field, n: int) returns (ok: bool)
    requires stream.Valid() && f.ltype.LBool? && TypedValue(f, VInt(n))
    modifies stream, stream.sink
    ensures stream.Emitted(ok, EncScalar(f, n))
  {
    ok := EncodeVarint(stream, if n != 0 then 1 else 0);
  }

  /** Also used for the elements of a packed bool array. */
  method EncVarint(stream: OStream, f: Field, n: int) returns (ok: bool)
    requires stream.Valid() && f.ltype.Packable() && !f.ltype.LFixed32? && !f.ltype.LFixed64?
    requires TypedValue(f, VInt(n)) && (f.ltype.LBool? ==> f.dataSize == 1)
    modifies stream, stream.sink
    ensures stream.Emitted(ok, EncScalar(f, n))
  {
    if !IntSize(f.dataSize) { return false; }
    if f.ltype.LUVarint? {
      ok := EncodeVarint(stream, n);
    } else if f.ltype.LSVarint? {
      ok := EncodeSvarint(stream, n);
    } else {
      ok := EncodeVarint(stream, ToU64(n));
    }
  }

  method EncFixed(stream: OStream, f: Field, n: int) returns (ok: bool)
    requires stream.Valid() && GoodField(f) && (f.ltype.LFixed32? || f.ltype.LFixed64?) && TypedValue(f, VInt(n))
    modifies stream, stream.sink
    ensures stream.Emitted(ok, EncScalar(f, n))
  {
    if f.dataSize == 4 { ok := EncodeFixed32(stream, n); }
    else if f.dataSize == 8 { ok := EncodeFixed64(stream, n); }
    else { ok := false; }
  }

  method EncBytes(stream: OStream, f: Field, b: seq<u8>) returns (ok: bool)
    requires stream.Valid() && GoodField(f) && f.ltype.LBytes? && TypedValue(f, VBytes(b))
    modifies stream, stream.sink
    ensures stream.Emitted(ok, EncValue(f, VBytes(b)))
  {
    if |b| > f.dataSize - BYTES_HEADER { return false; }
    ok := EncodeString(stream, b);
  }

  /** The character at position i of a buffer holding the string b. */
  function CharAt(b: seq<u8>, i: nat): u8 { if i < |b| then b[i] else 0 }

  method EncString(stream: OStream, f: Field, b: seq<u8>) returns (ok: bool)
    requires stream.Valid() && f.ltype.LString? && TypedValue(f, VBytes(b))
    modifies stream, stream.sink
    ensures stream.Emitted(ok, EncValue(f, VBytes(b)))
  {
    if f.dataSize == 0 { return false; }
    var maxSize := f.dataSize - 1;
    var size := 0;
    while size < maxSize && CharAt(b, size) != 0
      invariant size <= maxSize && size <= |b|
    {
      size := size + 1;
    }
    if CharAt(b, size) != 0 { return false; }
    assert size == |b| && b[..size] == b;
    ok := EncodeString(stream, b[..size]);
  }

  method EncFixedLengthBytes(stream: OStream, f: Field, b: seq<u8>) returns (ok: bool)
    requires stream.Valid() && f.ltype.LFixedBytes? && TypedValue(f, VBytes(b))
    modifies stream, stream.sink
    ensures stream.Emitted(ok, EncValue(f, VBytes(b)))
  {
    ok := EncodeString(stream, b);
  }

  method EncSubmessage(stream: OStream, f: Field, v: Value) returns (ok: bool)
    requires stream.Valid() && GoodField(f) && f.ltype.LSubmsg? && TypedValue(f, v)
    modifies stream, stream.sink
    ensures stream.Emitted(ok, EncValue(f, v))
    decreases f, 1
  {
    ok := EncodeSubmessage(stream, f.ltype.sub, v.slots);
  }

  /** The switch of encode_basic_field. */
  method EncodeData(stream: OStream, f: Field, v: Value) returns (ok: bool)
    requires stream.Valid() && GoodField(f) && TypedValue(f, v)
    modifies stream, stream.sink
    ensures stream.Emitted(ok, EncValue(f, v))
    decreases f, 2, 0
  {
    match f.ltype {
      case LBool => ok := EncBool(stream, f, v.n);
      case LVarint | LUVarint | LSVarint => ok := EncVarint(stream, f, v.n);
      case LFixed32 | LFixed64 => ok := EncFixed(stream, f, v.n);
      case LBytes => ok := EncBytes(stream, f, v.b);
      case LString => ok := EncString(stream, f, v.b);
      case LSubmsg(_) => ok := EncSubmessage(stream, f, v);
      case LFixedBytes => ok := EncFixedLengthBytes(stream, f, v.b);
    }
  }

  method EncodeBasicField(stream: OStream, f: Field, v: Value) returns (ok: bool)
    requires stream.Valid() && GoodField(f) && TypedValue(f, v)
    modifies stream, stream.sink
    ensures stream.Emitted(ok, EncTagged(f, v))
    decreases f, 2, 1
  {
    ghost var s0, e0 := stream.Snap(), Some(FieldTag(f));
    ok := EncodeTagForField(stream, f);
    ghost var s1 := stream.Snap();
    if !ok { EmitsStop(s0, s1, e0, EncValue(f, v)); return; }
    ok := EncodeData(stream, f, v);
    EmitsThen(s0, s1, stream.Snap(), e0, ok, EncValue(f, v));
  }

  /** The message's length is found by encoding it to a stream that only counts; then it is encoded
      again, to a stream limited to that length. */
  method EncodeSubmessage(stream: OStream, d: MsgDesc, m: seq<Slot>) returns (ok: bool)
    requires stream.Valid() && GoodDesc(d) && Typed(d, m)
    modifies stream, stream.sink
    ensures stream.Emitted(ok, Prefixed(EncMsg(d, m)))
    decreases d, 8
  {
    ghost var s0 := stream.Snap();
    ghost var e := EncMsg(d, m);
    var substream := new OStream.Sizing();
    ok := Encode(substream, d, m);
    if !ok { return; }
    var size := substream.bytesWritten;
    ghost var e0 := Some(VarintBytes(size % TWO64));
    ok := EncodeVarint(stream, size % TWO64);
    ghost var s1 := stream.Snap();
    if !ok { EmitsStop(s0, s1, e0, e); return; }
    if stream.sink == null {
      stream.bytesWritten := stream.bytesWritten + size;
      EmitsThen(s0, s1, stream.Snap(), e0, true, e);
      return true;
    }
    if stream.bytesWritten + size > stream.maxSize {
      EmitsThen(s0, s1, stream.Snap(), e0, false, e);
      return false;
    }
    substream.sink, substream.state, substream.maxSize, substream.bytesWritten := stream.sink, stream.state, size, 0;
    var status := Encode(substream, d, m);
    stream.bytesWritten := stream.bytesWritten + substream.bytesWritten;
    stream.state := substream.state;
    // "submsg size changed" cannot happen
    assert substream.bytesWritten == size && status;
    if substream.bytesWritten != size { return false; }
    EmitsThen(s0, s1, stream.Snap(), e0, true, e);
    ok := status;
  }

  function Prefixed(e: Option<seq<u8>>): Option<seq<u8>> {
    match e case None => None case Some(b) => Some(LengthPrefixed(b))
  }

  method EncodeArray(stream: OStream, f: Field, items: seq<Value>) returns (ok: bool)
    requires stream.Valid() && GoodField(f) && TypedItems(f, items)
    modifies stream, stream.sink
    ensures stream.Emitted(ok, EncArray(f, items))
    decreases f, 3
  {
    var count := |items|;
    if count == 0 { return true; }
    if count > f.arraySize { return false; }
    if f.ltype.Packable() {
      ok := EncodePacked(stream, f, items);
    } else {
      ok := EncodeUnpacked(stream, f, items);
    }
  }

  method EncodeUnpacked(stream: OStream, f: Field, items: seq<Value>) returns (ok: bool)
    requires stream.Valid() && GoodField(f) && TypedItems(f, items)
    modifies stream, stream.sink
    ensures stream.Emitted(ok, EncItems(f, items, |items|))
    decreases f, 2, 2
  {
    ghost var s0 := stream.Snap();
    var count := |items|;
    var i := 0;
    while i < count
      invariant i <= count && stream.Valid() && stream.sink == old(stream.sink)
      invariant Emits(s0, stream.Snap(), true, EncItems(f, items, i))
    {
      ghost var s1 := stream.Snap();
      ok := EncodeBasicField(stream, f, items[i]);
      EmitsThen(s0, s1, stream.Snap(), EncItems(f, items, i), ok, EncTagged(f, items[i]));
      i := i + 1;
      if !ok {
        ItemsGrow(f, items, i, count);
        EmitsFail(s0, stream.Snap(), EncItems(f, items, i), EncItems(f, items, count));
        return;
      }
    }
    ok := true;
  }

  method EncodePacked(stream: OStream, f: Field, items: seq<Value>) returns (ok: bool)
    requires stream.Valid() && GoodField(f) && TypedItems(f, items) && f.ltype.Packable() && 1 <= |items|
    modifies stream, stream.sink
    ensures stream.Emitted(ok, EncPacked(f, items))
  {
    ghost var s0, e := stream.Snap(), EncPacked(f, items);
    ghost var e0 := Some(TagBytes(Tag(f.tag, WT_STRING)));
    var count := |items|;
    ok := EncodeTag(stream, WT_STRING, f.tag);
    ghost var s1 := stream.Snap();
    ghost var p := Payload(f, items, count);
    if !ok { PackedParts(f, items); EmitsStop(s0, s1, e0, Prefixed(p)); return; }
    var size := PackedSize(f, items);
    PayloadDefined(f, items, count);
    ghost var e1 := Some(VarintBytes(size % TWO64));
    ok := EncodeVarint(stream, size % TWO64);
    ghost var s2 := stream.Snap();
    EmitsThen(s0, s1, s2, e0, ok, e1);
    PackedParts(f, items);
    if !ok { EmitsStop(s0, s2, Cat(e0, e1), p); return; }
    if stream.sink == null {
      stream.bytesWritten := stream.bytesWritten + size;
      EmitsThen(s0, s2, stream.Snap(), Cat(e0, e1), true, p);
      return true;
    }
    ok := EncodeElements(stream, f, items);
    EmitsThen(s0, s2, stream.Snap(), Cat(e0, e1), ok, p);
  }

  method EncodeElements(stream: OStream, f: Field, items: seq<Value>) returns (ok: bool)
    requires stream.Valid() && GoodField(f) && TypedItems(f, items) && f.ltype.Packable()
    modifies stream, stream.sink
    ensures stream.Emitted(ok, Payload(f, items, |items|))
  {
    ghost var s0 := stream.Snap();
    var count := |items|;
    var i := 0;
    while i < count
      invariant i <= count && stream.Valid() && stream.sink == old(stream.sink)
      invariant Emits(s0, stream.Snap(), true, Payload(f, items, i))
    {
      assert TypedValue(f, items[i]);
      ghost var s1 := stream.Snap();
      if f.ltype.LFixed32? || f.ltype.LFixed64? {
        ok := EncFixed(stream, f, items[i].n);
      } else {
        ok := EncVarint(stream, f, items[i].n);
      }
      EmitsThen(s0, s1, stream.Snap(), Payload(f, items, i), ok, EncScalar(f, items[i].n));
      i := i + 1;
      if !ok {
        PayloadGrow(f, items, i, count);
        EmitsFail(s0, stream.Snap(), Payload(f, items, i), Payload(f, items, count));
        return;
      }
    }
    ok := true;
  }

  /** The length of a packed array's payload, by a formula or by encoding to a counting stream. */
  method PackedSize(f: Field, items: seq<Value>) returns (size: nat)
    requires GoodField(f) && TypedItems(f, items) && f.ltype.Packable()
    ensures Payload(f, items, |items|).Some? && size == |Payload(f, items, |items|).value|
  {
    PayloadDefined(f, items, |items|);
    if f.ltype.LFixed32? {
      size := 4 * |items|;
    } else if f.ltype.LFixed64? {
      size := 8 * |items|;
    } else {
      var sizestream := new OStream.Sizing();
      var i := 0;
      while i < |items|
        invariant i <= |items| && sizestream.sink == null && Payload(f, items, i).Some?
        invariant sizestream.bytesWritten == |Payload(f, items, i).value|
      {
        PayloadDefined(f, items, i + 1);
        var ok := EncVarint(sizestream, f, items[i].n);
        i := i + 1;
      }
      size := sizestream.bytesWritten;
    }
  }

  // ---- Facts about the specification --------------------------------------------------------------

  /** If y is defined then so is x, and x is not longer. */
  predicate NoLonger(x: Option<seq<u8>>, y: Option<seq<u8>>) { y.Some? ==> x.Some? && |x.value| <= |y.value| }

  lemma EmitsFail(a: OSnap, b: OSnap, x: Option<seq<u8>>, y: Option<seq<u8>>)
    requires a.Valid() && Emits(a, b, false, x)
    requires NoLonger(x, y)
    ensures Emits(a, b, false, y)
  {}

  lemma {:induction false} PayloadDefined(f: Field, items: seq<Value>, k: nat)
    requires GoodField(f) && TypedItems(f, items) && f.ltype.Packable() && k <= |items|
    ensures Payload(f, items, k).Some?
    ensures f.ltype.LFixed32? ==> |Payload(f, items, k).value| == 4 * k
    ensures f.ltype.LFixed64? ==> |Payload(f, items, k).value| == 8 * k
  {
    if k > 0 { PayloadDefined(f, items, k - 1); }
  }

  lemma {:induction false} PayloadGrow(f: Field, items: seq<Value>, i: nat, j: nat)
    requires TypedItems(f, items) && f.ltype.Packable() && i <= j <= |items|
    ensures NoLonger(Payload(f, items, i), Payload(f, items, j))
    decreases j
  {
    if i < j { PayloadGrow(f, items, i, j - 1); }
  }

  lemma {:induction false} ItemsGrow(f: Field, items: seq<Value>, i: nat, j: nat)
    requires TypedItems(f, items) && i <= j <= |items|
    ensures NoLonger(EncItems(f, items, i), EncItems(f, items, j))
    decreases j
  {
    if i < j { ItemsGrow(f, items, i, j - 1); }
  }

  lemma {:induction false} FieldsGrow(d: MsgDesc, m: seq<Slot>, i: nat, j: nat)
    requires Typed(d, m) && i <= j <= |m|
    ensures NoLonger(EncUpTo(d, m, i), EncUpTo(d, m, j))
    decreases j
  {
    if i < j { FieldsGrow(d, m, i, j - 1); }
  }

  lemma PackedParts(f: Field, items: seq<Value>)
    requires TypedItems(f, items) && f.ltype.Packable()
    ensures var p := Payload(f, items, |items|);
            var tag := Some(TagBytes(Tag(f.tag, WT_STRING)));
            && EncPacked(f, items) == Cat(tag, Prefixed(p))
            && (p.Some? ==> EncPacked(f, items) == Cat(Cat(tag, Some(VarintBytes(|p.value| % TWO64))), p))
  {
    var p := Payload(f, items, |items|);
    if p.Some? {
      var t, l := TagBytes(Tag(f.tag, WT_STRING)), VarintBytes(|p.value| % TWO64);
      assert t + (l + p.value) == t + l + p.value;
    }
  }

  method EncodeField(stream: OStream, d: MsgDesc, f: Field, s: Slot) returns (ok: bool)
    requires stream.Valid() && GoodField(f) && TypedSlot(f, s)
    modifies stream, stream.sink
    ensures stream.Emitted(ok, EncSlot(d, f, s))
    decreases f, 4
  {
    match f.htype {
      case Oneof(_) =>
        if !s.chosen { return true; }
      case Optional =>
        if !s.has { return true; }
      case Singular =>
        var dflt := CheckDefault(d, f, s);
        if dflt { return true; }
      case _ =>
    }
    if f.htype.Repeated? || f.htype.FixArray? {
      ok := EncodeArray(stream, f, s.items);
    } else {
      ok := EncodeBasicField(stream, f, s.v);
    }
  }

  /** pb_check_proto3_default_value. */
  method CheckDefault(d: MsgDesc, f: Field, s: Slot) returns (r: bool)
    requires TypedSlot(f, s)
    ensures r == IsDefault(d, f, s)
    decreases f
  {
    match f.htype {
      case Required => return false;
      case Repeated => return |s.items| == 0;
      case FixArray => return f.arraySize == 0;
      case Oneof(_) => return !s.chosen;
      case Optional => return !s.has;
      case Singular =>
        if d.hasDefaults { return false; }
        match f.ltype {
          case LBytes | LString => return |s.v.b| == 0;
          case LFixedBytes => return f.dataSize == 0;
          case LSubmsg(sub) =>
            assert TypedValue(f, s.v);
            var k := 0;
            while k < |sub.fields|
              invariant k <= |sub.fields|
              invariant forall i :: 0 <= i < k ==> IsDefault(sub, sub.fields[i], s.v.slots[i])
            {
              var one := CheckDefault(sub, sub.fields[k], s.v.slots[k]);
              if !one { return false; }
              k := k + 1;
            }
            return true;
          case _ => return s.v.n == 0;
        }
    }
  }

  method Encode(stream: OStream, d: MsgDesc, m: seq<Slot>) returns (ok: bool)
    requires stream.Valid() && GoodDesc(d) && Typed(d, m)
    modifies stream, stream.sink
    ensures stream.Emitted(ok, EncMsg(d, m))
    decreases d, 7
  {
    ghost var s0 := stream.Snap();
    var k := 0;
    while k < |d.fields|
      invariant k <= |d.fields| && stream.Valid()
      invariant stream.sink == old(stream.sink)
      invariant Emits(s0, stream.Snap(), true, EncUpTo(d, m, k))
    {
      ghost var s1, e0, e1 := stream.Snap(), EncUpTo(d, m, k), EncSlot(d, d.fields[k], m[k]);
      ok := EncodeField(stream, d, d.fields[k], m[k]);
      EmitsThen(s0, s1, stream.Snap(), e0, ok, e1);
      if !ok { FieldsGrow(d, m, k + 1, |m|); EmitsFail(s0, stream.Snap(), EncUpTo(d, m, k + 1), EncMsg(d, m)); return; }
      k := k + 1;
    }
    ok := true;
  }

  /** pb_get_encoded_size: a run over a stream that only counts. */
  method GetEncodedSize(d: MsgDesc, m: seq<Slot>) returns (ok: bool, size: nat)
    requires GoodDesc(d) && Typed(d, m)
    ensures ok <==> EncMsg(d, m).Some?
    ensures ok ==> size == |EncMsg(d, m).value|
  {
    var stream := new OStream.Sizing();
    ok := Encode(stream, d, m);
    size := stream.bytesWritten;
  }

  /** The same encoder on a counting stream and on a buffer: the first says in advance whether the second
      succeeds and how many bytes it writes; when it fails, nothing outside the room it had is touched. */
  lemma SizingAgreesWithWriting(a: OSnap, b: OSnap, ok: bool, c: OSnap, e: OSnap, ok': bool, enc: Option<seq<u8>>)
    requires a.Valid() && a.sink == null && Emits(a, b, ok, enc)
    requires c.Valid() && c.sink != null && Emits(c, e, ok', enc)
    ensures ok' <==> ok && b.written - a.written <= c.maxSize - c.written
    ensures ok' ==> e.written - c.written == b.written - a.written
    ensures e.written <= e.maxSize == c.maxSize
    ensures Untouched(c.content, e.content, c.state, c.state + (c.maxSize - c.written))
    ensures ok' ==> enc.Some? && e.content[c.state..e.state] == enc.value
  {
    if ok' {
      assert e.content == Splice(c.content, c.state, enc.value);
    }
  }

  /** Sizing a message and then writing it to size bytes of a buffer: the count says in advance whether the writing
      succeeds, and is what it writes; outside the bytes written, or the room given when it fails, the buffer stays. */
  method MeasureAndWrite(d: MsgDesc, m: seq<Slot>, buf: array<u8>, start: nat, size: nat)
    returns (sized: bool, count: nat, ok: bool)
    requires GoodDesc(d) && Typed(d, m) && start + size <= buf.Length
    modifies buf
    ensures ok <==> sized && count <= size
    ensures ok ==> EncMsg(d, m) == Some(buf[start..start + count])
    ensures Untouched(old(buf[..]), buf[..], start, start + if ok then count else size)
  {
    var counter := new OStream.Sizing();
    ghost var a := counter.Snap();
    sized := Encode(counter, d, m);
    count := counter.bytesWritten;
    ghost var b := counter.Snap();
    var stream := new OStream.FromBuffer(buf, start, size);
    ghost var c := stream.Snap();
    ok := Encode(stream, d, m);
    SizingAgreesWithWriting(a, b, sized, c, stream.Snap(), ok, EncMsg(d, m));
  }
}
