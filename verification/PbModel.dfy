/** Message descriptors and message structures, for statically allocated fields without callbacks. */
module PbModel {
  import opened Words

  /** PB_LTYPE: how one item is encoded. */
  datatype LType =
    | LBool | LVarint | LUVarint | LSVarint | LFixed32 | LFixed64
    | LBytes | LString | LFixedBytes
    | LSubmsg(sub: MsgDesc)
  {
    /** PB_LTYPE_LAST_PACKABLE and below. */
    predicate Packable() {
      LBool? || LVarint? || LUVarint? || LSVarint? || LFixed32? || LFixed64?
    }
  }

  /** PB_HTYPE together with whether there is a has/count/which member (pSize). */
  datatype HType =
    | Required
    | Optional          // with a has_ member
    | Singular          // without one (proto3)
    | Repeated          // with a _count member
    | FixArray          // fixed count, no member
    | Oneof(group: nat) // with the union's which_ member

  /** One field; dflt is what its data holds after initialisation to defaults. */
  datatype Field = Field(tag: nat, ltype: LType, htype: HType, dataSize: nat, arraySize: nat, dflt: Value)

  datatype MsgDesc = MsgDesc(fields: seq<Field>, hasDefaults: bool)

  /** The data of one item. A string is its characters up to the terminator. */
  datatype Value = VInt(n: int) | VBytes(b: seq<u8>) | VMsg(slots: seq<Slot>)

  /** One field of a message structure. The members of a union each have a slot, at most one being chosen. */
  datatype Slot =
    | Single(v: Value)
    | Opt(has: bool, v: Value)
    | Rep(items: seq<Value>)
    | Fixed(items: seq<Value>)
    | Member(chosen: bool, v: Value)

  predicate IntSize(n: nat) { n == 1 || n == 2 || n == 4 || n == 8 }

  /** The number of values of an integer of n bytes. */
  function IntRange(n: nat): int {
    if n == 1 then 0x100 else if n == 2 then 0x1_0000 else if n == 4 then TWO32 else TWO64
  }

  /** offsetof(pb_bytes_array_t, bytes). */
  const BYTES_HEADER := 2

  const PB_SIZE_MAX := 0xFFFF

  // ---- Well-formed descriptors ----------------------------------------------------------------

  /** What the generator promises of a field. */
  predicate GoodField(f: Field)
    decreases f, 1
  {
    && 1 <= f.tag < 0x2000_0000 && f.dataSize <= PB_SIZE_MAX && 1 <= f.arraySize <= PB_SIZE_MAX
    && match f.ltype
       case LBool => f.dataSize == 1 && TypedValue(f, f.dflt)
       case LVarint | LUVarint | LSVarint => IntSize(f.dataSize) && TypedValue(f, f.dflt)
       case LFixed32 => f.dataSize == 4 && TypedValue(f, f.dflt)
       case LFixed64 => f.dataSize == 8 && TypedValue(f, f.dflt)
       case LBytes => f.dataSize >= BYTES_HEADER && TypedValue(f, f.dflt)
       case LString => f.dataSize >= 1 && TypedValue(f, f.dflt)
       case LFixedBytes => TypedValue(f, f.dflt)
       case LSubmsg(sub) => GoodDesc(sub)
  }

  predicate GoodDesc(d: MsgDesc)
    decreases d, 1
  {
    forall i :: 0 <= i < |d.fields| ==> GoodField(d.fields[i])
  }

  /** Strictly ascending tags; without default values every field starts as zero. Submessages likewise. */
  predicate SortedDesc(d: MsgDesc) {
    && (forall i, j :: 0 <= i < j < |d.fields| ==> d.fields[i].tag < d.fields[j].tag)
    && (forall i :: 0 <= i < |d.fields| ==> SortedField(d.fields[i], d.hasDefaults))
  }

  predicate SortedField(f: Field, hasDefaults: bool) {
    match f.ltype
    case LSubmsg(sub) => SortedDesc(sub)
    case _ => !hasDefaults ==> f.dflt == ZeroValue(f)
  }

  /** All-zero data. */
  function ZeroValue(f: Field): Value
    decreases f, 0
  {
    match f.ltype
    case LBytes | LString => VBytes([])
    case LFixedBytes => VBytes(seq(f.dataSize, _ => 0))
    case LSubmsg(sub) => VMsg(ZeroMsg(sub))
    case _ => VInt(0)
  }

  function ZeroSlot(f: Field): Slot
    decreases f, 1
  {
    match f.htype
    case Required | Singular => Single(ZeroValue(f))
    case Optional => Opt(false, ZeroValue(f))
    case Repeated => Rep([])
    case FixArray => Fixed(seq(f.arraySize, _ => ZeroValue(f)))
    case Oneof(_) => Member(false, ZeroValue(f))
  }

  function ZeroMsg(d: MsgDesc): (m: seq<Slot>)
    ensures |m| == |d.fields|
    decreases d, 2
  {
    seq(|d.fields|, i requires 0 <= i < |d.fields| => ZeroSlot(d.fields[i]))
  }

  // ---- Messages of the right shape --------------------------------------------------------------

  predicate TypedValue(f: Field, v: Value)
    decreases f, 0
  {
    match f.ltype
    case LBool => v.VInt? && 0 <= v.n <= 1
    case LVarint | LSVarint => v.VInt? && -(IntRange(f.dataSize) / 2) <= v.n < IntRange(f.dataSize) / 2
    case LUVarint => v.VInt? && 0 <= v.n < IntRange(f.dataSize)
    case LFixed32 => v.VInt? && 0 <= v.n < TWO32
    case LFixed64 => v.VInt? && 0 <= v.n < TWO64
    case LBytes => v.VBytes? && |v.b| <= PB_SIZE_MAX
    case LString => v.VBytes? && |v.b| <= f.dataSize && forall i :: 0 <= i < |v.b| ==> v.b[i] != 0
    case LFixedBytes => v.VBytes? && |v.b| == f.dataSize
    case LSubmsg(sub) => v.VMsg? && Typed(sub, v.slots)
  }

  predicate TypedItems(f: Field, items: seq<Value>)
    decreases f, 1
  {
    forall i :: 0 <= i < |items| ==> TypedValue(f, items[i])
  }

  predicate TypedSlot(f: Field, s: Slot)
    decreases f, 2
  {
    match f.htype
    case Required | Singular => s.Single? && TypedValue(f, s.v)
    case Optional => s.Opt? && TypedValue(f, s.v)
    case Repeated => s.Rep? && TypedItems(f, s.items)
    case FixArray => s.Fixed? && |s.items| == f.arraySize && TypedItems(f, s.items)
    case Oneof(_) => s.Member? && TypedValue(f, s.v)
  }

  predicate IsSet(s: Slot) { s.Member? && s.chosen }

  /** A union has one which_ member, so at most one of its members is set. */
  predicate OneofsOk(d: MsgDesc, m: seq<Slot>)
    requires |m| == |d.fields|
  {
    forall i, j :: 0 <= i < j < |m| && d.fields[i].htype.Oneof? && d.fields[j].htype == d.fields[i].htype ==>
                     !(IsSet(m[i]) && IsSet(m[j]))
  }

  predicate Typed(d: MsgDesc, m: seq<Slot>)
    decreases d, 3
  {
    && |m| == |d.fields| && OneofsOk(d, m)
    && forall i :: 0 <= i < |m| ==> TypedSlot(d.fields[i], m[i])
  }

  lemma {:induction false} ZeroTyped(f: Field)
    requires GoodField(f)
    ensures TypedValue(f, ZeroValue(f))
    decreases f, 0
  {
    if f.ltype.LSubmsg? {
      var d := f.ltype.sub;
      forall i | 0 <= i < |d.fields| ensures TypedSlot(d.fields[i], ZeroSlot(d.fields[i])) { ZeroTyped(d.fields[i]); }
    }
  }
}
