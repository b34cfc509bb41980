/** The code generator's upper bound on the encoded size of a message, against what the encoder writes. */
module PbGenerator {
  import opened Words
  import opened PbVarint
  import opened PbStream
  import opened PbModel
  import opened PbEncode

  // ---- The generator's view of a .proto file ---------------------------------------------------

  datatype Scalar =
    | Bool | Double | Fixed32 | Fixed64 | Float | Int32 | Int64 | SFixed32 | SFixed64
    | SInt32 | SInt64 | UInt32 | UInt64

  /** The int_size option. */
  datatype IntSizeOption = IsDefault | Is8 | Is16 | Is32 | Is64

  datatype GType =
    | GScalar(scalar: Scalar, intSize: IntSizeOption)
    | GEnum(values: seq<int>)
    | GUnknownEnum
    | GString(maxSize: nat)
    | GBytes(maxSize: nat)
    | GFixedBytes(maxSize: nat)
    | GMessage(msg: GMsg)
    | GUnknownMessage

  /** maxCount is None for a field that is not repeated. */
  datatype GField = GField(tag: nat, gtype: GType, maxCount: Option<nat>)

  datatype GItem = Plain(field: GField) | OneOf(fields: seq<GField>)

  /** order lists all fields of the message in tag order, by item and by position within a oneof. */
  datatype GMsg = GMsg(items: seq<GItem>, order: seq<(nat, nat)>)

  // ---- The sizes the generator computes --------------------------------------------------------

  function VarintSize(v: nat): nat { |VarintBytes(v)| }

  /** What varint_max_size counts for a number: None for its ValueError. */
  function VarintMaxSize(v: int): Option<nat> {
    var x := if v < 0 then TWO64 - v else v;
    if x < Pow2(70) then Some(VarintSize(x)) else None
  }

  /** The encoded size column of the datatypes table. */
  function TableSize(s: Scalar, n: IntSizeOption): nat {
    match s
    case Bool => 1
    case Fixed32 | Float | SFixed32 => 4
    case Fixed64 | Double | SFixed64 => 8
    case Int32 | Int64 => 10
    case SInt32 | UInt32 => if n.Is8? then 2 else if n.Is16? then 3 else if n.Is64? then 10 else 5
    case SInt64 | UInt64 => if n.Is8? then 2 else if n.Is16? then 3 else if n.Is32? then 5 else 10
  }

  /** The size of the C type in the same row. */
  function TableData(s: Scalar, n: IntSizeOption): nat {
    match s
    case Bool => 1
    case Fixed32 | Float | SFixed32 => 4
    case Fixed64 | Double | SFixed64 => 8
    case Int32 | SInt32 | UInt32 => if n.Is8? then 1 else if n.Is16? then 2 else if n.Is64? then 8 else 4
    case Int64 | SInt64 | UInt64 => if n.Is8? then 1 else if n.Is16? then 2 else if n.Is32? then 4 else 8
  }

  function Add(a: Option<nat>, b: Option<nat>): Option<nat> {
    if a.Some? && b.Some? then Some(a.value + b.value) else None
  }

  function Largest(a: Option<nat>, b: Option<nat>): Option<nat> {
    if a.Some? && b.Some? then Some(if a.value > b.value then a.value else b.value) else None
  }

  /** The largest size of a declared value; None where Python's max or varint_max_size raises. */
  function EnumSize(values: seq<int>): Option<nat> {
    if values == [] then None
    else if |values| == 1 then VarintMaxSize(values[0])
    else Largest(EnumSize(values[..|values| - 1]), VarintMaxSize(values[|values| - 1]))
  }

  /** The size of one item without its tag; None when it is not a number. */
  function TypeSize(t: GType): Option<nat>
    decreases t, 0
  {
    match t
    case GScalar(s, n) => Some(TableSize(s, n))
    case GEnum(values) => EnumSize(values)
    case GUnknownEnum => Some(10)
    case GString(n) => if n == 0 then None else Add(VarintMaxSize(n), Some(n - 1))
    case GBytes(n) => Add(VarintMaxSize(n), Some(n))
    case GFixedBytes(n) => Add(VarintMaxSize(n), Some(n))
    case GMessage(m) =>
      (match MessageSize(m, |m.items|)
       case None => None
       case Some(size) => Add(Some(size), VarintMaxSize(size)))
    case GUnknownMessage => None
  }

  function FieldSize(g: GField): Option<nat>
    decreases g, 1
  {
    match Add(TypeSize(g.gtype), VarintMaxSize(g.tag * 8))
    case None => None
    case Some(size) =>
      if g.maxCount.None? then Some(size)
      else Some(ArrayTotal(size, g.maxCount.value))
  }

  /** Room for every item with its own tag; the length byte of a packed array of one item comes on top. */
  function ArrayTotal(itemSize: nat, count: nat): nat {
    itemSize * count + if count == 1 then 1 else 0
  }

  /** The largest of the first k fields of a oneof. */
  function OneOfSize(fields: seq<GField>, k: nat): Option<nat>
    requires k <= |fields|
    decreases fields, k
  {
    if k == 0 then Some(0) else Largest(OneOfSize(fields, k - 1), FieldSize(fields[k - 1]))
  }

  function ItemSize(i: GItem): Option<nat>
    decreases i, 2
  {
    match i
    case Plain(g) => FieldSize(g)
    case OneOf(fields) => OneOfSize(fields, |fields|)
  }

  /** The sum over the first k items. */
  function MessageSize(m: GMsg, k: nat): Option<nat>
    requires k <= |m.items|
    decreases m, k
  {
    if k == 0 then Some(0) else Add(MessageSize(m, k - 1), ItemSize(m.items[k - 1]))
  }

  // ---- The generator's loops -------------------------------------------------------------------

  method ComputeVarintMaxSize(v: int) returns (r: Option<nat>)
    ensures r == VarintMaxSize(v)
  {
    var x := v;
    if v < 0 { x := TWO64 - v; }
    for i := 1 to 11
      invariant x >= 0 && x >= PowBelow(i)
    {
      ghost var power := Pow2(7 * i);
      QuotientZero(x, power);
      if x / Pow2(7 * i) == 0 {
        SizeBetween(x, i);
        return Some(i);
      }
      assert x >= power == PowBelow(i + 1);
    }
    return None;
  }

  /** The numbers that i - 1 groups of seven bits cannot hold start here. */
  ghost function PowBelow(i: nat): nat { if i <= 1 then 0 else Pow2(7 * (i - 1)) }

  lemma QuotientZero(x: nat, d: nat)
    requires d >= 1
    ensures x / d == 0 <==> x < d
  {}

  lemma SizeBetween(x: nat, i: nat)
    requires 1 <= i <= 10 && PowBelow(i) <= x < Pow2(7 * i)
    ensures VarintSize(x) == i && x < Pow2(70)
  {
    CanonicalLength(x, i);
    Pow2Mono(7 * i, 70);
    if i > 1 { CanonicalAtLeast(x, i - 1); }
  }

  method ComputeOneOfSize(fields: seq<GField>) returns (r: Option<nat>)
    ensures r == OneOfSize(fields, |fields|)
    decreases fields, |fields| + 1
  {
    var largest := 0;
    for k := 0 to |fields|
      invariant OneOfSize(fields, k) == Some(largest)
    {
      var size := ComputeFieldSize(fields[k]);
      if size.None? { NoneStays(fields, k + 1); return None; }
      if size.value > largest { largest := size.value; }
    }
    return Some(largest);
  }

  lemma {:induction false} NoneStays(fields: seq<GField>, k: nat)
    requires k <= |fields| && OneOfSize(fields, k).None?
    ensures OneOfSize(fields, |fields|).None?
    decreases |fields| - k
  {
    if k < |fields| { NoneStays(fields, k + 1); }
  }

  method ComputeTypeSize(t: GType) returns (r: Option<nat>)
    ensures r == TypeSize(t)
    decreases t, 0
  {
    match t {
      case GMessage(m) =>
        var inner := ComputeMessageSize(m);
        if inner.None? { return None; }
        var prefix := ComputeVarintMaxSize(inner.value);
        if prefix.None? { return None; }
        r := Some(inner.value + prefix.value);
      case _ => r := TypeSize(t);
    }
  }

  method ComputeFieldSize(g: GField) returns (r: Option<nat>)
    ensures r == FieldSize(g)
    decreases g, 1
  {
    var size := ComputeTypeSize(g.gtype);
    if size.None? { return None; }
    var tag := ComputeVarintMaxSize(g.tag * 8);
    if tag.None? { return None; }
    var total := size.value + tag.value;
    if g.maxCount.Some? {
      total := total * g.maxCount.value;
      if g.maxCount.value == 1 { total := total + 1; }
    }
    return Some(total);
  }

  method ComputeMessageSize(m: GMsg) returns (r: Option<nat>)
    ensures r == MessageSize(m, |m.items|)
    decreases m, |m.items| + 1
  {
    var size := 0;
    for k := 0 to |m.items|
      invariant MessageSize(m, k) == Some(size)
    {
      var item;
      match m.items[k] {
        case Plain(g) => item := ComputeFieldSize(g);
        case OneOf(fields) => item := ComputeOneOfSize(fields);
      }
      if item.None? { NoneRemains(m, k + 1); return None; }
      size := size + item.value;
    }
    return Some(size);
  }

  lemma {:induction false} NoneRemains(m: GMsg, k: nat)
    requires k <= |m.items| && MessageSize(m, k).None?
    ensures MessageSize(m, |m.items|).None?
    decreases |m.items| - k
  {
    if k < |m.items| { NoneRemains(m, k + 1); }
  }

  // ---- The descriptor that is generated from the same field ------------------------------------

  function ScalarLType(s: Scalar): LType {
    match s
    case Bool => LBool
    case Fixed32 | Float | SFixed32 => LFixed32
    case Fixed64 | Double | SFixed64 => LFixed64
    case Int32 | Int64 => LVarint
    case SInt32 | SInt64 => LSVarint
    case UInt32 | UInt64 => LUVarint
  }

  function FieldAt(m: GMsg, p: (nat, nat)): GField
    requires InItems(m, p)
  {
    match m.items[p.0]
    case Plain(g) => g
    case OneOf(fields) => fields[p.1]
  }

  predicate InItems(m: GMsg, p: (nat, nat)) {
    p.0 < |m.items| && match m.items[p.0] case Plain(_) => p.1 == 0 case OneOf(fields) => p.1 < |fields|
  }

  /** A bytes field is a structure of a two-byte size and n bytes, padded to an even size. */
  predicate BuiltType(t: GType, f: Field)
    decreases f, 0
  {
    match t
    case GScalar(s, n) => f.ltype == ScalarLType(s) && f.dataSize == TableData(s, n)
    case GEnum(_) => f.ltype.LVarint? || f.ltype.LUVarint?
    case GUnknownEnum => f.ltype.LVarint? || f.ltype.LUVarint?
    case GString(n) => f.ltype.LString? && f.dataSize == n
    case GBytes(n) => f.ltype.LBytes? && f.dataSize == BYTES_HEADER + n + n % 2
    case GFixedBytes(n) => f.ltype.LFixedBytes? && f.dataSize == n
    case GMessage(m) => f.ltype.LSubmsg? && BuiltMsg(m, f.ltype.sub)
    case GUnknownMessage => f.ltype.LSubmsg?
  }

  predicate BuiltField(g: GField, f: Field)
    decreases f, 1
  {
    && f.tag == g.tag && BuiltType(g.gtype, f)
    && (g.maxCount.Some? <==> f.htype.Repeated? || f.htype.FixArray?)
    && (g.maxCount.Some? ==> f.arraySize == g.maxCount.value)
  }

  predicate BuiltMsg(m: GMsg, d: MsgDesc)
    decreases d, 0
  {
    && |m.order| == |d.fields|
    && (forall i, j :: 0 <= i < j < |m.order| ==> m.order[i] != m.order[j])
    && (forall i :: 0 <= i < |m.order| ==>
          && InItems(m, m.order[i]) && BuiltField(FieldAt(m, m.order[i]), d.fields[i])
          && (m.items[m.order[i].0].OneOf? ==> d.fields[i].htype == Oneof(m.order[i].0)))
  }

  /** Enum values are declared ones and bytes values no longer than declared. */
  predicate Declared(t: GType, v: Value)
    decreases v, 0
  {
    match t
    case GEnum(values) => v.VInt? && v.n in values
    case GBytes(n) => v.VBytes? && |v.b| <= n
    case GMessage(m) => v.VMsg? && DeclaredMsg(m, v.slots)
    case _ => true
  }

  predicate DeclaredSlot(t: GType, s: Slot)
    decreases s, 1
  {
    match s
    case Single(v) => Declared(t, v)
    case Opt(has, v) => has ==> Declared(t, v)
    case Member(chosen, v) => chosen ==> Declared(t, v)
    case Rep(items) => forall i :: 0 <= i < |items| ==> Declared(t, items[i])
    case Fixed(items) => forall i :: 0 <= i < |items| ==> Declared(t, items[i])
  }

  predicate DeclaredMsg(m: GMsg, slots: seq<Slot>)
    decreases slots, 2
  {
    && |slots| == |m.order|
    && forall i :: 0 <= i < |slots| ==> InItems(m, m.order[i]) && DeclaredSlot(FieldAt(m, m.order[i]).gtype, slots[i])
  }

  // ---- One item --------------------------------------------------------------------------------

  lemma {:induction false} VarintSizeMono(a: nat, b: nat)
    requires a <= b
    ensures VarintSize(a) <= VarintSize(b)
  {
    if b >= 128 && a >= 128 { VarintSizeMono(a / 128, b / 128); }
  }

  lemma SizeByWidth(v: nat)
    ensures v < 0x100 ==> VarintSize(v) <= 2
    ensures v < 0x1_0000 ==> VarintSize(v) <= 3
    ensures v < TWO32 ==> VarintSize(v) <= 5
    ensures v < TWO64 ==> VarintSize(v) <= 10
    ensures v < 2 ==> VarintSize(v) == 1
  {
    Pow2Constants();
    if v < 0x100 { CanonicalLength(v, 2); }
    if v < 0x1_0000 { CanonicalLength(v, 3); }
    if v < TWO32 { CanonicalLength(v, 5); }
    if v < TWO64 { CanonicalLength(v, 10); }
  }

  /** A table row covers every value of its C type. */
  lemma ScalarBound(s: Scalar, n: IntSizeOption, f: Field, v: int)
    requires f.ltype == ScalarLType(s) && f.dataSize == TableData(s, n) && TypedValue(f, VInt(v))
    ensures EncScalar(f, v).Some? && |EncScalar(f, v).value| <= TableSize(s, n) <= 10
  {
    match f.ltype {
      case LBool => SizeByWidth(v);
      case LVarint => SizeByWidth(ToU64(v));
      case LUVarint => SizeByWidth(v);
      case LSVarint => SizeByWidth(ZigZag(v));
      case _ =>
    }
  }

  /** An enum of any declared value, negative ones taking ten bytes. */
  lemma {:induction false} EnumBound(values: seq<int>, f: Field, v: int)
    requires (f.ltype.LVarint? || f.ltype.LUVarint?) && TypedValue(f, VInt(v)) && IntSize(f.dataSize)
    requires EnumSize(values).Some? && v in values
    ensures EncScalar(f, v).Some? && |EncScalar(f, v).value| <= EnumSize(values).value <= 10
  {
    OneEnumValue(f, v);
    EnumSizeCovers(values, v);
  }

  lemma OneEnumValue(f: Field, v: int)
    requires (f.ltype.LVarint? || f.ltype.LUVarint?) && TypedValue(f, VInt(v)) && IntSize(f.dataSize)
    ensures EncScalar(f, v).Some? && VarintMaxSize(v).Some? && |EncScalar(f, v).value| <= VarintMaxSize(v).value
  {
    SizeByWidth(ToU64(v));
    Pow2Constants();
    if v < 0 {
      var x := TWO64 - v;
      CanonicalAtLeast(x, 9);
    }
  }

  lemma AtMostTen(v: int)
    ensures VarintMaxSize(v).Some? ==> VarintMaxSize(v).value <= 10
  {
    var x := if v < 0 then TWO64 - v else v;
    if x < Pow2(70) { CanonicalLength(x, 10); }
  }

  lemma {:induction false} EnumSizeCovers(values: seq<int>, v: int)
    requires EnumSize(values).Some? && v in values
    ensures VarintMaxSize(v).Some? && VarintMaxSize(v).value <= EnumSize(values).value <= 10
  {
    var last := values[|values| - 1];
    AtMostTen(last);
    if |values| > 1 {
      var front := values[..|values| - 1];
      if v in front {
        EnumSizeCovers(front, v);
      } else {
        assert v == last;
        EnumSizeCovers(front, front[0]);
      }
    } else {
      assert v == values[0];
    }
  }

  lemma BlockBound(b: seq<u8>, n: nat)
    requires |b| <= n
    ensures |LengthPrefixed(b)| <= VarintSize(n) + |b|
  {
    VarintSizeMono(|b| % TWO64, n);
  }

  /** A bytes field keeps to its estimate exactly when its value is no longer than declared; the encoder's own
      check, on the padded structure, lets one byte more through when the declared size is odd. */
  lemma BytesBound(n: nat, f: Field, b: seq<u8>)
    requires BuiltType(GBytes(n), f) && TypedValue(f, VBytes(b)) && EncValue(f, VBytes(b)).Some? && n <= PB_SIZE_MAX
    ensures TypeSize(GBytes(n)).Some?
    ensures |EncValue(f, VBytes(b)).value| <= TypeSize(GBytes(n)).value <==> |b| <= n
    ensures |b| <= n + n % 2
  {
    SizeOfSize(n);
    BlockIff(b, n);
  }

  lemma SizeOfSize(n: nat)
    requires n < TWO64
    ensures VarintMaxSize(n) == Some(VarintSize(n))
  {
    Pow2Constants();
  }

  lemma BlockIff(b: seq<u8>, n: nat)
    requires |b| < TWO64
    ensures |LengthPrefixed(b)| <= VarintSize(n) + n <==> |b| <= n
  {
    if |b| <= n { VarintSizeMono(|b|, n); } else { VarintSizeMono(n, |b|); }
  }

  /** Two bytes in a field declared for one: encoded all the same, and past the estimate. */
  lemma OversizedBytes(f: Field, b: seq<u8>)
    requires BuiltType(GBytes(1), f) && |b| == 2
    ensures EncValue(f, VBytes(b)).Some? && |EncValue(f, VBytes(b)).value| == 3
    ensures TypeSize(GBytes(1)) == Some(2)
  {
    SizeOfSize(1);
  }

  // ---- Fields, arrays and messages -------------------------------------------------------------

  /** Numbers: scalars and enums. */
  lemma NumberBound(t: GType, f: Field, v: Value)
    requires t.GScalar? || t.GEnum? || t.GUnknownEnum?
    requires GoodField(f) && BuiltType(t, f) && TypedValue(f, v) && Declared(t, v) && TypeSize(t).Some?
    ensures EncValue(f, v).Some? && |EncValue(f, v).value| <= TypeSize(t).value <= 10
  {
    match t {
      case GScalar(s, n) => ScalarBound(s, n, f, v.n);
      case GEnum(values) => EnumBound(values, f, v.n);
      case GUnknownEnum => SizeByWidth(if f.ltype.LVarint? then ToU64(v.n) else v.n);
    }
  }

  lemma BlobBound(t: GType, f: Field, v: Value)
    requires t.GString? || t.GBytes? || t.GFixedBytes?
    requires GoodField(f) && BuiltType(t, f) && TypedValue(f, v) && Declared(t, v)
    requires TypeSize(t).Some? && EncValue(f, v).Some?
    ensures |EncValue(f, v).value| <= TypeSize(t).value && !f.ltype.Packable()
  {
    match t {
      case GString(n) => BlockBound(v.b, n);
      case GBytes(n) => BytesBound(n, f, v.b);
      case GFixedBytes(n) => BlockBound(v.b, n);
    }
  }

  lemma {:induction false} ValueBound(t: GType, f: Field, v: Value)
    requires GoodField(f) && BuiltType(t, f) && TypedValue(f, v) && Declared(t, v)
    requires TypeSize(t).Some? && EncValue(f, v).Some?
    ensures |EncValue(f, v).value| <= TypeSize(t).value
    ensures f.ltype.Packable() ==> TypeSize(t).value <= 10
    decreases f, 0
  {
    match t {
      case GScalar(_, _) | GEnum(_) | GUnknownEnum => NumberBound(t, f, v);
      case GString(_) | GBytes(_) | GFixedBytes(_) => BlobBound(t, f, v);
      case GMessage(m) =>
        MessageBound(m, f.ltype.sub, v.slots);
        SubmessageBound(EncMsg(f.ltype.sub, v.slots).value, MessageSize(m, |m.items|).value);
    }
  }

  lemma SubmessageBound(b: seq<u8>, size: nat)
    requires |b| <= size
    ensures |LengthPrefixed(b)| <= size + VarintSize(size)
  {
    BlockBound(b, size);
  }

  /** Wire type bits do not lengthen a tag. */
  lemma TagSize(tag: nat, wireType: nat)
    requires wireType < 8
    ensures |TagBytes(Tag(tag, wireType))| == VarintSize(tag * 8) >= 1
  {
    var v := tag * 8 + wireType;
    if v >= 128 {
      assert v / 128 == tag / 16 && tag * 8 / 128 == tag / 16;
    }
  }

  lemma {:induction false} RecordBound(t: GType, f: Field, v: Value)
    requires GoodField(f) && BuiltType(t, f) && TypedValue(f, v) && Declared(t, v)
    requires TypeSize(t).Some? && EncTagged(f, v).Some?
    ensures |EncTagged(f, v).value| <= VarintSize(f.tag * 8) + TypeSize(t).value
    decreases f, 1
  {
    TagSize(f.tag, WireType(f.ltype));
    ValueBound(t, f, v);
  }

  lemma {:induction false} ItemsBound(t: GType, f: Field, items: seq<Value>, k: nat)
    requires GoodField(f) && BuiltType(t, f) && TypedItems(f, items) && k <= |items|
    requires forall i :: 0 <= i < |items| ==> Declared(t, items[i])
    requires TypeSize(t).Some? && EncItems(f, items, k).Some?
    ensures |EncItems(f, items, k).value| <= k * (TypeSize(t).value + VarintSize(f.tag * 8))
    decreases f, 2, k
  {
    if k > 0 {
      ItemsBound(t, f, items, k - 1);
      RecordBound(t, f, items[k - 1]);
      Times(k, TypeSize(t).value + VarintSize(f.tag * 8));
    }
  }

  lemma Times(k: nat, x: int)
    requires k > 0
    ensures k * x == (k - 1) * x + x
  {}

  lemma {:induction false} PayloadBound(t: GType, f: Field, items: seq<Value>, k: nat)
    requires GoodField(f) && f.ltype.Packable() && BuiltType(t, f) && TypedItems(f, items) && k <= |items|
    requires forall i :: 0 <= i < |items| ==> Declared(t, items[i])
    requires TypeSize(t).Some? && Payload(f, items, k).Some?
    ensures |Payload(f, items, k).value| <= k * TypeSize(t).value
    ensures k > 0 ==> TypeSize(t).value <= 10
    decreases f, 2, k
  {
    if k > 0 {
      PayloadBound(t, f, items, k - 1);
      ValueBound(t, f, items[k - 1]);
      Times(k, TypeSize(t).value);
    }
  }

  /** The length byte of a packed array of n >= 2 small items costs no more than the n - 1 tags it saves. */
  lemma {:induction false} LengthByte(n: nat)
    requires n >= 2
    ensures VarintSize(10 * n) <= n - 1
  {
    if n > 2 {
      LengthByte(n - 1);
      OneMore(10 * (n - 1), 10);
    } else {
      assert 10 * n == 20 && VarintBytes(20) == [20];
    }
  }

  lemma {:induction false} OneMore(x: nat, d: nat)
    requires d <= 127 && x >= 1
    ensures VarintSize(x + d) <= VarintSize(x) + 1
  {
    SizeStep(x);
    SizeStep(x + d);
    if x >= 128 {
      assert x / 128 <= (x + d) / 128 <= x / 128 + 1;
      if (x + d) / 128 == x / 128 + 1 { OneMore(x / 128, 1); }
    } else if x + d >= 128 {
      assert (x + d) / 128 == 1;
      SizeStep(1);
    }
  }

  lemma SizeStep(v: nat)
    ensures VarintSize(v) == if v < 128 then 1 else 1 + VarintSize(v / 128)
  {}

  /** A packed array is within the estimate made for the unpacked form, with one byte more for a single item. */
  lemma {:induction false} PackedBound(t: GType, f: Field, items: seq<Value>, count: nat)
    requires GoodField(f) && f.ltype.Packable() && BuiltType(t, f) && TypedItems(f, items)
    requires forall i :: 0 <= i < |items| ==> Declared(t, items[i])
    requires 1 <= |items| <= count && TypeSize(t).Some? && EncPacked(f, items).Some?
    ensures |EncPacked(f, items).value| <= ArrayTotal(TypeSize(t).value + VarintSize(f.tag * 8), count)
    decreases f, 3
  {
    var n, s, tag := |items|, TypeSize(t).value, VarintSize(f.tag * 8);
    var p := |Payload(f, items, n).value|;
    PayloadBound(t, f, items, n);
    TagSize(f.tag, WT_STRING);
    TenTimes(n, s, count);
    VarintSizeMono(p % TWO64, 10 * count);
    PackedArithmetic(count, tag, s, VarintSize(p % TWO64), p);
  }

  lemma TenTimes(n: nat, s: nat, count: nat)
    requires n <= count && s <= 10
    ensures n * s <= count * s <= 10 * count
  {
    NoGap2(s, n, count);
    NoGap2(count, s, 10);
  }

  lemma PackedArithmetic(count: nat, tag: nat, s: nat, prefix: nat, p: nat)
    requires count >= 1 && tag >= 1 && prefix <= VarintSize(10 * count) && p <= count * s
    ensures tag + prefix + p <= ArrayTotal(s + tag, count)
  {
    if count >= 2 {
      LengthByte(count);
      assert (s + tag) * count == count * tag + count * s && count * tag == (count - 1) * tag + tag;
      NoGap2(count - 1, 1, tag);
    }
  }

  lemma {:induction false} UnpackedBound(t: GType, f: Field, items: seq<Value>, count: nat)
    requires GoodField(f) && BuiltType(t, f) && TypedItems(f, items)
    requires forall i :: 0 <= i < |items| ==> Declared(t, items[i])
    requires |items| <= count && TypeSize(t).Some? && EncItems(f, items, |items|).Some?
    ensures |EncItems(f, items, |items|).value| <= ArrayTotal(TypeSize(t).value + VarintSize(f.tag * 8), count)
    decreases f, 3
  {
    ItemsBound(t, f, items, |items|);
    FewerItems(|items|, TypeSize(t).value + VarintSize(f.tag * 8), count);
  }

  lemma FewerItems(n: nat, size: nat, count: nat)
    requires n <= count
    ensures n * size <= ArrayTotal(size, count)
  {
    NoGap2(size, n, count);
  }

  lemma {:induction false} ArrayBound(g: GField, f: Field, items: seq<Value>)
    requires GoodField(f) && BuiltField(g, f) && g.maxCount.Some? && TypedItems(f, items)
    requires forall i :: 0 <= i < |items| ==> Declared(g.gtype, items[i])
    requires FieldSize(g).Some? && EncArray(f, items).Some?
    ensures |EncArray(f, items).value| <= FieldSize(g).value
    decreases f, 4
  {
    var n, count := |items|, g.maxCount.value;
    if n > 0 {
      if f.ltype.Packable() {
        PackedBound(g.gtype, f, items, count);
      } else {
        UnpackedBound(g.gtype, f, items, count);
      }
    }
  }

  lemma {:induction false} SlotBound(g: GField, d: MsgDesc, f: Field, s: Slot)
    requires GoodField(f) && BuiltField(g, f) && TypedSlot(f, s) && DeclaredSlot(g.gtype, s)
    requires FieldSize(g).Some? && EncSlot(d, f, s).Some?
    ensures |EncSlot(d, f, s).value| <= FieldSize(g).value
    decreases f, 5
  {
    match f.htype {
      case Repeated | FixArray => ArrayBound(g, f, s.items);
      case Required => RecordBound(g.gtype, f, s.v);
      case Singular => if EncSlot(d, f, s) != Some([]) { RecordBound(g.gtype, f, s.v); }
      case Optional => if s.has { RecordBound(g.gtype, f, s.v); }
      case Oneof(_) => if s.chosen { RecordBound(g.gtype, f, s.v); }
    }
  }

  // ---- Sums --------------------------------------------------------------------------------------

  function Sum(s: seq<nat>): nat { if s == [] then 0 else Sum(s[..|s| - 1]) + s[|s| - 1] }

  lemma {:induction false} SumUpdate(s: seq<nat>, k: nat)
    requires k < |s|
    ensures Sum(s) == Sum(s[k := 0]) + s[k]
  {
    var n := |s| - 1;
    if k < n {
      assert s[k := 0][..n] == s[..n][k := 0];
      SumUpdate(s[..n], k);
    } else {
      assert s[k := 0][..n] == s[..n];
    }
  }

  /** No two sizes that count share an owner. */
  predicate SoleOwner(sizes: seq<nat>, owner: seq<nat>, i: int, j: int)
    requires 0 <= i < |sizes| == |owner| && 0 <= j < |sizes|
  {
    i != j && sizes[i] > 0 && sizes[j] > 0 ==> owner[i] != owner[j]
  }

  /** Sizes that are each within their owner's bound, no two of them sharing an owner, sum to no more than
      the bounds do. */
  lemma {:induction false} SumWithin(sizes: seq<nat>, owner: seq<nat>, bounds: seq<nat>)
    requires |sizes| == |owner| && forall i :: 0 <= i < |owner| ==> owner[i] < |bounds| && sizes[i] <= bounds[owner[i]]
    requires forall i, j {:trigger SoleOwner(sizes, owner, i, j)} ::
               0 <= i < |sizes| && 0 <= j < |sizes| ==> SoleOwner(sizes, owner, i, j)
    ensures Sum(sizes) <= Sum(bounds)
    decreases |sizes|
  {
    if sizes != [] {
      var n := |sizes| - 1;
      var rest := if sizes[n] > 0 then bounds[owner[n] := 0] else bounds;
      forall i | 0 <= i < n ensures sizes[i] <= rest[owner[i]] {
        assert SoleOwner(sizes, owner, i, n);
      }
      forall i, j | 0 <= i < n && 0 <= j < n ensures SoleOwner(sizes[..n], owner[..n], i, j) {
        assert SoleOwner(sizes, owner, i, j);
      }
      SumWithin(sizes[..n], owner[..n], rest);
      SumUpdate(bounds, owner[n]);
    }
  }

  // ---- The message ------------------------------------------------------------------------------

  lemma {:induction false} OneOfCovers(fields: seq<GField>, k: nat, j: nat)
    requires j < k <= |fields| && OneOfSize(fields, k).Some?
    ensures FieldSize(fields[j]).Some? && FieldSize(fields[j]).value <= OneOfSize(fields, k).value
    decreases k
  {
    if j < k - 1 { OneOfCovers(fields, k - 1, j); }
  }

  lemma {:induction false} ItemKnown(m: GMsg, k: nat, j: nat)
    requires j < k <= |m.items| && MessageSize(m, k).Some?
    ensures ItemSize(m.items[j]).Some?
    decreases k
  {
    if j < k - 1 { ItemKnown(m, k - 1, j); }
  }

  function ItemBound(m: GMsg, j: nat): nat
    requires j < |m.items|
  {
    match ItemSize(m.items[j]) case Some(n) => n case None => 0
  }

  function ItemBounds(m: GMsg, k: nat): (b: seq<nat>)
    requires k <= |m.items|
    ensures |b| == k && forall j :: 0 <= j < k ==> b[j] == ItemBound(m, j)
  {
    seq(k, j requires 0 <= j < k => ItemBound(m, j))
  }

  lemma {:induction false} MessageSizeIsSum(m: GMsg, k: nat)
    requires k <= |m.items| && MessageSize(m, k).Some?
    ensures MessageSize(m, k).value == Sum(ItemBounds(m, k))
  {
    if k > 0 {
      MessageSizeIsSum(m, k - 1);
      assert ItemBounds(m, k)[..k - 1] == ItemBounds(m, k - 1);
    }
  }

  function SlotSize(d: MsgDesc, m: seq<Slot>, i: nat): nat
    requires Typed(d, m) && i < |m|
  {
    match EncSlot(d, d.fields[i], m[i]) case Some(b) => |b| case None => 0
  }

  function SlotSizes(d: MsgDesc, m: seq<Slot>, k: nat): (s: seq<nat>)
    requires Typed(d, m) && k <= |m|
    ensures |s| == k && forall i :: 0 <= i < k ==> s[i] == SlotSize(d, m, i)
  {
    seq(k, i requires 0 <= i < k => SlotSize(d, m, i))
  }

  lemma {:induction false} EncodingIsSum(d: MsgDesc, m: seq<Slot>, k: nat)
    requires Typed(d, m) && k <= |m| && EncUpTo(d, m, k).Some?
    ensures |EncUpTo(d, m, k).value| == Sum(SlotSizes(d, m, k))
    ensures forall i :: 0 <= i < k ==> EncSlot(d, d.fields[i], m[i]).Some?
  {
    if k > 0 {
      EncodingIsSum(d, m, k - 1);
      assert SlotSizes(d, m, k)[..k - 1] == SlotSizes(d, m, k - 1);
    }
  }

  /** Two fields of one item that both take up room would be two chosen members of one oneof. */
  lemma OwnersDiffer(g: GMsg, d: MsgDesc, m: seq<Slot>, i: nat, j: nat)
    requires Typed(d, m) && BuiltMsg(g, d) && i < j < |m|
    requires SlotSize(d, m, i) > 0 && SlotSize(d, m, j) > 0
    ensures g.order[i].0 != g.order[j].0
  {
    if g.order[i].0 == g.order[j].0 {
      assert g.order[i] != g.order[j] && InItems(g, g.order[i]) && InItems(g, g.order[j]);
      assert TypedSlot(d.fields[i], m[i]) && TypedSlot(d.fields[j], m[j]);
      assert d.fields[i].htype == Oneof(g.order[i].0) == d.fields[j].htype;
      assert IsSet(m[i]) && IsSet(m[j]);
    }
  }

  lemma {:induction false} FieldWithin(g: GMsg, d: MsgDesc, m: seq<Slot>, i: nat)
    requires GoodDesc(d) && Typed(d, m) && BuiltMsg(g, d) && DeclaredMsg(g, m) && i < |m|
    requires MessageSize(g, |g.items|).Some? && EncSlot(d, d.fields[i], m[i]).Some?
    ensures SlotSize(d, m, i) <= ItemBound(g, g.order[i].0)
    decreases d, 0
  {
    var p := g.order[i];
    assert InItems(g, p);
    ItemKnown(g, |g.items|, p.0);
    match g.items[p.0] {
      case Plain(_) =>
      case OneOf(fields) => OneOfCovers(fields, |fields|, p.1);
    }
    SlotBound(FieldAt(g, p), d, d.fields[i], m[i]);
  }

  /** The main result: where the generator's estimate is a number, no message with declared enum values and
      no oversized bytes is encoded in more bytes. */
  lemma {:induction false} MessageBound(g: GMsg, d: MsgDesc, m: seq<Slot>)
    requires GoodDesc(d) && Typed(d, m) && BuiltMsg(g, d) && DeclaredMsg(g, m)
    requires MessageSize(g, |g.items|).Some? && EncMsg(d, m).Some?
    ensures |EncMsg(d, m).value| <= MessageSize(g, |g.items|).value
    decreases d, 1
  {
    var n := |m|;
    EncodingIsSum(d, m, n);
    MessageSizeIsSum(g, |g.items|);
    var sizes, bounds := SlotSizes(d, m, n), ItemBounds(g, |g.items|);
    var owner := seq(n, i requires 0 <= i < n => g.order[i].0);
    forall i | 0 <= i < n ensures owner[i] < |bounds| && sizes[i] <= bounds[owner[i]] {
      assert InItems(g, g.order[i]);
      FieldWithin(g, d, m, i);
    }
    forall i, j | 0 <= i < n && 0 <= j < n ensures SoleOwner(sizes, owner, i, j) {
      if i != j && sizes[i] > 0 && sizes[j] > 0 {
        if i < j { OwnersDiffer(g, d, m, i, j); } else { OwnersDiffer(g, d, m, j, i); }
      }
    }
    SumWithin(sizes, owner, bounds);
  }
}
