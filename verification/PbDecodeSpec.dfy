/** What decoding a byte string into a message structure means. The functions are total: on a structure
    that does not fit its descriptor they return something, and TypedDecode says that one that fits stays so. */
module PbDecodeSpec {
  import opened Words
  import opened PbVarint
  import opened PbStream
  import opened PbModel
  import PbEncode

  // ---- Parts of a structure -----------------------------------------------------------------------

  function SlotsOf(sub: MsgDesc, v: Value): (m: seq<Slot>)
    ensures |m| == |sub.fields|
  {
    if v.VMsg? && |v.slots| == |sub.fields| then v.slots else ZeroMsg(sub)
  }

  function ItemsOf(s: Slot): seq<Value> { if s.Rep? || s.Fixed? then s.items else [] }

  function DataOf(s: Slot): Value { if s.Single? || s.Opt? || s.Member? then s.v else VInt(0) }

  // ---- Initialisation to defaults -----------------------------------------------------------------

  /** Whether a submessage is initialised field by field rather than cleared. */
  predicate NeedsInit(d: MsgDesc) {
    d.hasDefaults || exists i :: 0 <= i < |d.fields| && d.fields[i].ltype.LSubmsg?
  }

  function InitValue(f: Field, v: Value): Value
    decreases f, 0
  {
    match f.ltype
    case LSubmsg(sub) => VMsg(if NeedsInit(sub) then InitMsg(sub, SlotsOf(sub, v)) else ZeroMsg(sub))
    case _ => f.dflt
  }

  /** Array counts and which_ members are cleared; their data is left alone. */
  function InitSlot(f: Field, s: Slot): Slot
    decreases f, 1
  {
    match f.htype
    case Required | Singular => Single(InitValue(f, DataOf(s)))
    case Optional => Opt(false, InitValue(f, DataOf(s)))
    case Repeated => Rep([])
    case FixArray => s
    case Oneof(_) => Member(false, DataOf(s))
  }

  /** pb_message_set_to_defaults on a structure holding m. */
  function InitMsg(d: MsgDesc, m: seq<Slot>): (r: seq<Slot>)
    requires |m| == |d.fields|
    ensures |r| == |m|
    decreases d, 2
  {
    seq(|m|, i requires 0 <= i < |m| => InitSlot(d.fields[i], m[i]))
  }

  // ---- One item -----------------------------------------------------------------------------------

  /** The low 32 bits, sign-extended. */
  function ToI32(v: nat): int {
    var w := v % TWO32;
    if w >= 0x8000_0000 then w - TWO32 else w
  }

  function CheckSigned(f: Field, n: int): Option<Value> {
    if IntSize(f.dataSize) && -(IntRange(f.dataSize) / 2) <= n < IntRange(f.dataSize) / 2 then Some(VInt(n)) else None
  }

  function CheckUnsigned(f: Field, n: int): Option<Value> {
    if IntSize(f.dataSize) && 0 <= n < IntRange(f.dataSize) then Some(VInt(n)) else None
  }

  function With(v: Option<Value>, n: nat): Option<(Value, nat)> {
    match v case None => None case Some(x) => Some((x, n))
  }

  /** The C string held by a buffer with these contents. */
  function CString(b: seq<u8>): (r: seq<u8>) {
    if b == [] || b[0] == 0 then [] else [b[0]] + CString(b[1..])
  }

  function DecVarintValue(f: Field, s: seq<u8>): (r: Option<(Value, nat)>)
    ensures r.Some? ==> 1 <= r.value.1 <= |s|
  {
    match ReadVarint(s)
    case None => None
    case Some((v, n)) =>
      if f.ltype.LUVarint? then With(CheckUnsigned(f, v), n)
      else if f.ltype.LSVarint? then With(CheckSigned(f, UnZigZag(v)), n)
      else With(CheckSigned(f, if f.dataSize == 8 then ToI64(v) else ToI32(v)), n)
  }

  function DecFixedBytes(f: Field, s: seq<u8>): (r: Option<(Value, nat)>)
    ensures r.Some? ==> 1 <= r.value.1 <= |s|
  {
    match ReadVarint32(s)
    case None => None
    case Some((size, n)) =>
      if size > PB_SIZE_MAX then None
      else if size == 0 then Some((VBytes(seq(f.dataSize, _ => 0)), n))
      else if size != f.dataSize || size > |s| - n then None
      else Some((VBytes(s[n..n + size]), n + size))
  }

  /** An item read from the front of s into memory holding start, and how many bytes it took. */
  function DecValue(f: Field, s: seq<u8>, start: Value): (r: Option<(Value, nat)>)
    ensures r.Some? ==> 1 <= r.value.1 <= |s|
    decreases f, 0
  {
    match f.ltype
    case LBool =>
      (match ReadVarint32(s) case None => None case Some((v, n)) => Some((VInt(if v != 0 then 1 else 0), n)))
    case LVarint | LUVarint | LSVarint => DecVarintValue(f, s)
    case LFixed32 => (match ReadFixed(s, 4) case None => None case Some((v, n)) => Some((VInt(v), n)))
    case LFixed64 => (match ReadFixed(s, 8) case None => None case Some((v, n)) => Some((VInt(v), n)))
    case LBytes =>
      (match ReadBlock(s)
       case None => None
       case Some((b, n)) => if |b| > PB_SIZE_MAX || |b| + BYTES_HEADER > f.dataSize then None else Some((VBytes(b), n)))
    case LString =>
      (match ReadBlock(s)
       case None => None
       case Some((b, n)) => if |b| + 1 > f.dataSize then None else Some((VBytes(CString(b)), n)))
    case LFixedBytes => DecFixedBytes(f, s)
    case LSubmsg(sub) =>
      (match ReadBlock(s)
       case None => None
       case Some((b, n)) =>
         match DecMsg(sub, b, SlotsOf(sub, start)) case None => None case Some(m) => Some((VMsg(m), n)))
  }

  // ---- Arrays ---------------------------------------------------------------------------------------

  /** Element number c stored: appended to a counted array, overwritten in a fixed one. */
  function PutItem(items: seq<Value>, c: nat, v: Value): (r: seq<Value>) {
    if c < |items| then items[c := v] else items + [v]
  }

  /** The memory in which element number c is decoded; submessages there are initialised first. */
  function ItemStart(f: Field, items: seq<Value>, c: nat): (v: Value) {
    var v := if c < |items| then items[c] else ZeroValue(f);
    if f.ltype.LSubmsg? then VMsg(InitMsg(f.ltype.sub, SlotsOf(f.ltype.sub, v))) else v
  }

  /** The elements of a packed block, stored from number c on; too many is an error. */
  function DecPacked(f: Field, s: seq<u8>, items: seq<Value>, c: nat): (r: Option<(seq<Value>, nat)>)
    decreases f, 1, |s|
  {
    if |s| == 0 then Some((items, c))
    else if c >= f.arraySize then None
    else match DecValue(f, s, ItemStart(f, items, c))
         case None => None
         case Some((v, n)) => DecPacked(f, s[n..], PutItem(items, c, v), c + 1)
  }

  /** A packed block with its length, and how many bytes it took. */
  function DecPackedBlock(f: Field, s: seq<u8>, items: seq<Value>, c: nat): (r: Option<((seq<Value>, nat), nat)>)
    ensures r.Some? ==> 1 <= r.value.1 <= |s|
    decreases f, 2
  {
    match ReadBlock(s)
    case None => None
    case Some((b, n)) => match DecPacked(f, b, items, c) case None => None case Some(r) => Some((r, n))
  }

  // ---- The loop over fields --------------------------------------------------------------------------

  /** fc is the fixed-count array last seen, with fcSize of its elements read so far; seen holds the
      numbers of the required fields met. */
  datatype DState = DState(msg: seq<Slot>, fc: Option<nat>, fcSize: nat, seen: set<nat>)

  const PB_MAX_REQUIRED_FIELDS := 64

  /** How many of the first i fields are required. */
  function RequiredBefore(d: MsgDesc, i: nat): nat
    requires i <= |d.fields|
  {
    if i == 0 then 0 else RequiredBefore(d, i - 1) + if d.fields[i - 1].htype.Required? then 1 else 0
  }

  predicate AllRequired(d: MsgDesc, seen: set<nat>) {
    forall r :: 0 <= r < RequiredBefore(d, |d.fields|) && r < PB_MAX_REQUIRED_FIELDS ==> r in seen
  }

  predicate CountComplete(d: MsgDesc, st: DState) {
    st.fc.Some? && st.fc.value < |d.fields| ==> st.fcSize == d.fields[st.fc.value].arraySize
  }

  /** The first field from number i on with this tag. */
  function FindFrom(d: MsgDesc, tag: nat, i: nat): (r: Option<nat>)
    requires i <= |d.fields|
    ensures r.Some? ==> i <= r.value < |d.fields| && d.fields[r.value].tag == tag
    ensures r.None? ==> forall j :: i <= j < |d.fields| ==> d.fields[j].tag != tag
    decreases |d.fields| - i
  {
    if i == |d.fields| then None else if d.fields[i].tag == tag then Some(i) else FindFrom(d, tag, i + 1)
  }

  /** The bookkeeping before the field's data is decoded. */
  function Enter(d: MsgDesc, st: DState, i: nat): (r: Option<DState>)
    requires i < |d.fields|
    ensures r.Some? ==> r.value.msg == st.msg
  {
    if d.fields[i].htype.FixArray? then
      if st.fc == Some(i) then Some(st)
      else if !CountComplete(d, st) then None
      else Some(st.(fc := Some(i), fcSize := 0))
    else if d.fields[i].htype.Required? && RequiredBefore(d, i) < PB_MAX_REQUIRED_FIELDS then
      Some(st.(seen := st.seen + {RequiredBefore(d, i)}))
    else Some(st)
  }

  predicate IsArray(f: Field) { f.htype.Repeated? || f.htype.FixArray? }

  /** Member i of its union becomes the chosen one. */
  function ChooseSlot(d: MsgDesc, m: seq<Slot>, i: nat, v: Value, j: nat): Slot
    requires |m| == |d.fields| && i < |m| && j < |m|
  {
    if j == i then Member(true, v)
    else if d.fields[j].htype == d.fields[i].htype then Member(false, DataOf(m[j]))
    else m[j]
  }

  function PutSingle(d: MsgDesc, m: seq<Slot>, i: nat, v: Value): (r: seq<Slot>)
    requires |m| == |d.fields| && i < |m|
    ensures |r| == |m|
  {
    match d.fields[i].htype
    case Oneof(_) => seq(|m|, j requires 0 <= j < |m| => ChooseSlot(d, m, i, v, j))
    case Optional => m[i := Opt(true, v)]
    case _ => m[i := Single(v)]
  }

  function PutArray(d: MsgDesc, st: DState, i: nat, items: seq<Value>, c: nat): (r: DState)
    requires |st.msg| == |d.fields| && i < |d.fields|
    ensures |r.msg| == |d.fields|
  {
    if d.fields[i].htype.Repeated? then st.(msg := st.msg[i := Rep(items)])
    else st.(msg := st.msg[i := Fixed(items)], fcSize := c)
  }

  /** How many elements the array has so far. */
  function Count(d: MsgDesc, st: DState, i: nat): nat
    requires |st.msg| == |d.fields| && i < |d.fields|
  {
    if d.fields[i].htype.Repeated? then |ItemsOf(st.msg[i])| else st.fcSize
  }

  /** A union member that was not the chosen one is initialised first if it is a submessage. */
  function FieldStart(f: Field, slot: Slot): Value {
    if f.htype.Oneof? && f.ltype.LSubmsg? && !IsSet(slot) then InitValue(f, ZeroValue(f)) else DataOf(slot)
  }

  function DecArray(d: MsgDesc, st: DState, i: nat, wireType: nat, s: seq<u8>): (r: Option<(DState, nat)>)
    requires |st.msg| == |d.fields| && i < |d.fields|
    ensures r.Some? ==> |r.value.0.msg| == |d.fields| && 1 <= r.value.1 <= |s|
    decreases d, 1, 0
  {
    var f, c, items := d.fields[i], Count(d, st, i), ItemsOf(st.msg[i]);
    if wireType == WT_STRING && f.ltype.Packable() then
      match DecPackedBlock(f, s, items, c)
      case None => None
      case Some(((items', c'), n)) => Some((PutArray(d, st, i, items', c'), n))
    else if c >= f.arraySize || wireType != PbEncode.WireType(f.ltype) then None
    else match DecValue(f, s, ItemStart(f, items, c))
         case None => None
         case Some((v, n)) => Some((PutArray(d, st, i, PutItem(items, c, v), c + 1), n))
  }

  function DecSingle(d: MsgDesc, st: DState, i: nat, wireType: nat, s: seq<u8>): (r: Option<(DState, nat)>)
    requires |st.msg| == |d.fields| && i < |d.fields|
    ensures r.Some? ==> |r.value.0.msg| == |d.fields| && 1 <= r.value.1 <= |s|
    decreases d, 1, 0
  {
    var f := d.fields[i];
    if wireType != PbEncode.WireType(f.ltype) then None
    else match DecValue(f, s, FieldStart(f, st.msg[i]))
         case None => None
         case Some((v, n)) => Some((st.(msg := PutSingle(d, st.msg, i, v)), n))
  }

  /** The data of field number i, after its tag. */
  function DecField(d: MsgDesc, st: DState, i: nat, wireType: nat, s: seq<u8>): (r: Option<(DState, nat)>)
    requires |st.msg| == |d.fields| && i < |d.fields|
    ensures r.Some? ==> |r.value.0.msg| == |d.fields| && 1 <= r.value.1 <= |s|
    decreases d, 1, 1
  {
    match Enter(d, st, i)
    case None => None
    case Some(st1) => if IsArray(d.fields[i]) then DecArray(d, st1, i, wireType, s)
          else DecSingle(d, st1, i, wireType, s)
  }

  /** What follows a tag: a field of the descriptor, or one to be skipped. */
  function AfterTag(d: MsgDesc, st: DState, tag: Tag, s: seq<u8>): (r: Option<(DState, nat)>)
    requires |st.msg| == |d.fields|
    ensures r.Some? ==> |r.value.0.msg| == |d.fields| && 1 <= r.value.1 <= |s|
    decreases d, 2, 0
  {
    if tag.number == 0 then None
    else match FindFrom(d, tag.number, 0)
         case None => (match FieldExtent(tag.wireType, s) case None => None case Some(k) => Some((st, k)))
         case Some(i) => DecField(d, st, i, tag.wireType, s)
  }

  /** A whole field, tag and all. */
  function Step(d: MsgDesc, s: seq<u8>, st: DState): (r: Option<(DState, nat)>)
    requires |st.msg| == |d.fields|
    ensures r.Some? ==> |r.value.0.msg| == |d.fields| && 1 <= r.value.1 <= |s|
    decreases d, 2, 1
  {
    match ReadTag(s)
    case None => None
    case Some((tag, n)) =>
      match AfterTag(d, st, tag, s[n..]) case None => None case Some((st', k)) => Some((st', n + k))
  }

  /** A step, when the tag has been read. */
  lemma StepBy(d: MsgDesc, s: seq<u8>, st: DState, tag: Tag, n: nat, rest: seq<u8>)
    requires |st.msg| == |d.fields| && ReadTag(s) == Some((tag, n)) && n <= |s| && rest == s[n..]
    ensures Step(d, s, st) == match AfterTag(d, st, tag, rest) case None => None case Some((t, k)) => Some((t, n + k))
  {}

  /** The fields in s, from state st. */
  function DecLoop(d: MsgDesc, s: seq<u8>, st: DState): (r: Option<DState>)
    requires |st.msg| == |d.fields|
    ensures r.Some? ==> |r.value.msg| == |d.fields|
    decreases d, 3, |s|
  {
    if |s| == 0 then Some(st)
    else match Step(d, s, st)
         case None => None
         case Some((st', n)) => DecLoop(d, s[n..], st')
  }

  function Start(m: seq<Slot>): DState { DState(m, None, 0, {}) }

  /** The checks after the last field. */
  function Finish(d: MsgDesc, st: Option<DState>): (r: Option<seq<Slot>>) {
    if st.Some? && CountComplete(d, st.value) && AllRequired(d, st.value.seen) then Some(st.value.msg) else None
  }

  /** Decoding into a structure that has been initialised already. */
  function DecMsg(d: MsgDesc, s: seq<u8>, m: seq<Slot>): (r: Option<seq<Slot>>)
    requires |m| == |d.fields|
    ensures r.Some? ==> |r.value| == |d.fields|
    decreases d, 4
  {
    Finish(d, DecLoop(d, s, Start(m)))
  }

  /** pb_decode: initialise, then decode. */
  function Decode(d: MsgDesc, s: seq<u8>, dest: seq<Slot>): (r: Option<seq<Slot>>)
    requires |dest| == |d.fields|
  {
    DecMsg(d, s, InitMsg(d, dest))
  }
}
