/** The iterator that walks the packed descriptor words of a message and searches them for a tag. */
module PbIterator {
  import opened Words
  import opened PbDescriptor

  /** What the bits of a field's type say. */
  datatype Role = Role(required: bool, repeated: bool, submsg: bool, extension: bool, inline: bool, pointer: bool)

  /** One declared field: its parameters, the role its type gives it and the words it was packed into. */
  datatype Entry = Entry(words: seq<bv32>, f: Info, role: Role)

  /** The type, data_size and array_size of the current field. */
  datatype Shape = Shape(kind: bv32, dataSize: bv32, arraySize: bv32)

  function ShapeOf(f: Info): Shape { Shape(f.kind, f.dataSize, f.arraySize) }

  /** pb_msgdesc_t: field_info, the descriptors of the submessages (by name), field_count and largest_tag. */
  datatype Descriptor = Descriptor(info: seq<bv32>, submsgs: seq<nat>, fieldCount: u16, largestTag: bv32)

  /** pField: so many bytes into the message structure. */
  datatype FieldPtr = NullField | FieldAt(message: int, offset: bv32)

  /** pSize is null, so many bytes before pField, or the address of the iterator's own array_size. */
  datatype SizePtr = NullSize | Before(field: FieldPtr, offset: bv32) | OwnArraySize

  /** pData is null, pField itself, or the pointer stored at pField. */
  datatype DataPtr = NullData | DataAt(field: FieldPtr) | DataVia(field: FieldPtr)

  predicate IsRequired(kind: bv32) { kind & 0x30 == 0x00 }
  predicate IsSubmsg(kind: bv32) { kind & 0x0F == 0x08 || kind & 0x0F == 0x09 }
  predicate IsExtension(kind: bv32) { kind & 0x0F == 0x0A }
  predicate IsRepeated(kind: bv32) { kind & 0x30 == 0x20 }
  predicate IsPointer(kind: bv32) { kind & 0xC0 == 0x80 }
  predicate IsStatic(kind: bv32) { kind & 0xC0 == 0x00 }

  function RoleOf(kind: bv32): Role {
    Role(IsRequired(kind), IsRepeated(kind), IsSubmsg(kind), IsExtension(kind), IsStatic(kind), IsPointer(kind))
  }

  /** The bits of a tag that the first word holds in every format. */
  function LowTag(tag: bv32): bv32 { tag & 0x3F }

  function DataPointer(role: Role, field: FieldPtr): DataPtr {
    if field.NullField? then NullData else if role.pointer then DataVia(field) else DataAt(field)
  }

  /** Where the count or presence of a field is kept. */
  function SizePointer(role: Role, sizeOffset: bv32, field: FieldPtr): SizePtr {
    if field.NullField? then NullSize
    else if sizeOffset != 0 then Before(field, sizeOffset)
    else if role.repeated && (role.inline || role.pointer) then OwnArraySize
    else NullSize
  }

  function FieldPointer(dataOffset: bv32, message: Option<int>): FieldPtr {
    match message
    case None => NullField
    case Some(address) => FieldAt(address, dataOffset)
  }

  // ---- The list of fields that the words stand for --------------------------------------------

  function PackAll(l: seq<Entry>): seq<bv32>
  {
    if l == [] then [] else PackAll(l[..|l| - 1]) + l[|l| - 1].words
  }

  /** Where field i starts, and how many required and submessage fields come before it. */
  function Start(l: seq<Entry>, i: nat): nat
    requires i <= |l|
  {
    if i == 0 then 0 else Start(l, i - 1) + |l[i - 1].words|
  }

  function RequiredBefore(l: seq<Entry>, i: nat): nat
    requires i <= |l|
  {
    if i == 0 then 0 else RequiredBefore(l, i - 1) + if l[i - 1].role.required then 1 else 0
  }

  function SubmsgsBefore(l: seq<Entry>, i: nat): nat
    requires i <= |l|
  {
    if i == 0 then 0 else SubmsgsBefore(l, i - 1) + if l[i - 1].role.submsg then 1 else 0
  }

  /** The words are those of one of the four formats, whose assertion the field meets. */
  ghost predicate GoodEntry(e: Entry) {
    1 <= |e.words| <= 8 && e.f.tag != 0 && e.role == RoleOf(e.f.kind) && exists w :: PackedAs(e, w)
  }

  predicate PackedAs(e: Entry, w: bv32) {
    w <= 3 && Asserted(w, e.f) && Representable(w, e.f) && e.words == Pack(w, e.f)
  }

  lemma EntryLength(e: Entry)
    requires GoodEntry(e)
    ensures WordLength(e.words[0]) == |e.words|
  {
    var w :| PackedAs(e, w);
    HeadLength(w, e.f);
  }

  lemma EntryRole(e: Entry)
    requires GoodEntry(e)
    ensures RoleOf(WordKind(e.words[0])) == e.role
  {
    var w :| PackedAs(e, w);
    HeadKind(w, e.f);
  }

  lemma EntryLowTag(e: Entry)
    requires GoodEntry(e)
    ensures WordLowTag(e.words[0]) == LowTag(e.f.tag)
  {
    var w :| PackedAs(e, w);
    HeadLowTag(w, e.f);
  }

  lemma EntryInfo(e: Entry)
    requires GoodEntry(e)
    ensures WordLength(e.words[0]) == |e.words| && Unpack(e.words) == e.f
  {
    EntryLength(e);
    var w :| PackedAs(e, w);
    UnpackPack(w, e.f);
  }

  predicate TagBelow(e: Entry, e': Entry) { e.f.tag < e'.f.tag }

  /** The words and counts of d are what PB_BIND builds from l, whose tags ascend. The indices fit pb_size_t. */
  ghost predicate Describes(d: Descriptor, l: seq<Entry>) {
    && |l| < 0xFFFF && d.fieldCount == |l|
    && forall k {:trigger Unfold(k)} :: k == 0 ==> DescribesWords(d, l)
  }

  ghost predicate DescribesWords(d: Descriptor, l: seq<Entry>) {
    && (forall i {:trigger GoodEntry(l[i])} :: 0 <= i < |l| ==> GoodEntry(l[i]))
    && d.info == PackAll(l) + [0]
    && |d.info| <= 0x1_0000
    && |d.submsgs| == SubmsgsBefore(l, |l|)
    && (forall i, j {:trigger TagBelow(l[i], l[j])} :: 0 <= i < j < |l| ==> TagBelow(l[i], l[j]))
    && d.largestTag == (if l == [] then 0 else l[|l| - 1].f.tag)
  }

  lemma {:induction false} StartMono(l: seq<Entry>, i: nat, j: nat)
    requires i <= j <= |l|
    ensures Start(l, i) <= Start(l, j) && RequiredBefore(l, i) <= RequiredBefore(l, j) <= RequiredBefore(l, i) + (j - i)
    ensures SubmsgsBefore(l, i) <= SubmsgsBefore(l, j) <= SubmsgsBefore(l, i) + (j - i)
  {
    if i < j {
      StartMono(l, i, j - 1);
    } else if i > 0 {
      StartMono(l, i - 1, i - 1);
    }
  }

  lemma {:induction false} StartPrefix(l: seq<Entry>, m: nat, i: nat)
    requires i <= m <= |l|
    ensures Start(l[..m], i) == Start(l, i)
  {
    if i > 0 { StartPrefix(l, m, i - 1); }
  }

  /** Field i occupies its own stretch of the words. */
  lemma {:induction false} PackedAt(l: seq<Entry>, i: nat)
    requires i < |l|
    ensures |PackAll(l)| == Start(l, |l|) && Start(l, i) + |l[i].words| <= Start(l, |l|)
    ensures PackAll(l)[Start(l, i)..Start(l, i) + |l[i].words|] == l[i].words
    decreases |l|
  {
    var front := l[..|l| - 1];
    StartPrefix(l, |l| - 1, |l| - 1);
    StartPrefix(l, |l| - 1, i);
    if i < |l| - 1 {
      PackedAt(front, i);
    } else if i > 0 {
      PackedAt(front, 0);
    }
  }

  /** What the words at the start of field i say. */
  lemma EntryHead(d: Descriptor, l: seq<Entry>, i: nat)
    requires Describes(d, l) && i < |l|
    ensures Start(l, i) + |l[i].words| < |d.info| <= 0x1_0000
    ensures var word0 := d.info[Start(l, i)];
            && WordLength(word0) == |l[i].words| && RoleOf(WordKind(word0)) == l[i].role
            && WordLowTag(word0) == LowTag(l[i].f.tag)
  {
    assert GoodEntry(l[i]) && |d.info| <= 0x1_0000 by { assert Unfold(0); }
    EntryLength(l[i]);
    EntryRole(l[i]);
    EntryLowTag(l[i]);
    EntryWords(d, l, i);
    assert d.info[Start(l, i)] == d.info[Start(l, i)..][..|l[i].words|][0];
  }

  lemma EntryUnpacked(d: Descriptor, l: seq<Entry>, i: nat)
    requires Describes(d, l) && i < |l|
    ensures Start(l, i) < |d.info| && Start(l, i) + WordLength(d.info[Start(l, i)]) <= |d.info|
    ensures Unpack(d.info[Start(l, i)..]) == l[i].f
  {
    EntryHead(d, l, i);
    EntryWords(d, l, i);
    assert GoodEntry(l[i]) by { assert Unfold(0); }
    EntryInfo(l[i]);
    UnpackPrefix(d.info[Start(l, i)..], |l[i].words|);
  }

  lemma EntryWords(d: Descriptor, l: seq<Entry>, i: nat)
    requires Describes(d, l) && i < |l|
    ensures Start(l, i) + |l[i].words| < |d.info| && d.info[Start(l, i)..][..|l[i].words|] == l[i].words
  {
    var s, n := Start(l, i), |l[i].words|;
    assert Unfold(0);
    PackedAt(l, i);
    assert d.info[s..][..n] == d.info[s..s + n] == PackAll(l)[s..s + n];
  }

  lemma UnpackPrefix(words: seq<bv32>, n: nat)
    requires 1 <= n <= |words| && n >= WordLength(words[0])
    ensures Unpack(words[..n]) == Unpack(words)
  {}

  lemma SubmsgInRange(d: Descriptor, l: seq<Entry>, i: nat)
    requires Describes(d, l) && i < |l| && l[i].role.submsg
    ensures SubmsgsBefore(l, i) < |d.submsgs|
  {
    assert Unfold(0);
    StartMono(l, i + 1, |l|);
  }

  /** The field described by the words at pos, and the role that its type gives it. */
  method ReadField(d: Descriptor, pos: nat, ghost l: seq<Entry>, ghost i: nat) returns (f: Info, role: Role)
    requires Describes(d, l) && i < |l| && pos == Start(l, i)
    ensures f == l[i].f && role == l[i].role
  {
    EntryUnpacked(d, l, i);
    f := Unpack(d.info[pos..]);
    assert l[i].role == RoleOf(l[i].f.kind) by {
      assert Unfold(0);
      assert GoodEntry(l[i]);
    }
    role := RoleOf(f.kind);
  }

  /** What the first word at pos says without loading the field: its length, its role, its low tag bits. */
  method ReadHead(d: Descriptor, pos: nat, ghost l: seq<Entry>, ghost i: nat)
        returns (length: nat, role: Role, low: bv32)
    requires Describes(d, l) && i < |l| && pos == Start(l, i)
    ensures length == |l[i].words| && role == l[i].role && low == LowTag(l[i].f.tag)
    ensures pos + length < 0x1_0000
  {
    EntryHead(d, l, i);
    var word0 := d.info[pos];
    length, role, low := WordLength(word0), RoleOf(WordKind(word0)), WordLowTag(word0);
  }

  predicate Hit(e: Entry, t: bv32) { e.f.tag == t && !e.role.extension }

  /** Field j is one that a search for t accepts. */
  ghost predicate Matches(l: seq<Entry>, j: nat, t: bv32) { j < |l| && Hit(l[j], t) }

  /** Which fields a search for t accepts. */
  ghost predicate AreHits(hits: seq<bool>, l: seq<Entry>, t: bv32) {
    |hits| == |l| && forall j {:trigger Hit(l[j], t)} :: 0 <= j < |l| ==> hits[j] == Hit(l[j], t)
  }

  lemma HitsMatch(hits: seq<bool>, l: seq<Entry>, t: bv32)
    requires AreHits(hits, l, t)
    ensures forall j: nat :: Matches(l, j, t) <==> j < |hits| && hits[j]
  {
    forall j: nat ensures Matches(l, j, t) <==> j < |hits| && hits[j] {
      if j < |l| { assert hits[j] == Hit(l[j], t); }
    }
  }

  ghost function Hits(l: seq<Entry>, t: bv32): (hits: seq<bool>)
    ensures AreHits(hits, l, t)
  {
    seq(|l|, j requires 0 <= j < |l| => Hit(l[j], t))
  }

  /** The order of the tags rules out every field, or every field from s on; field s itself is ruled out by
      its tag, current. */
  lemma LargestRulesOut(d: Descriptor, l: seq<Entry>, t: bv32, hits: seq<bool>)
    requires Describes(d, l) && AreHits(hits, l, t) && t > d.largestTag
    ensures forall j :: 0 <= j < |hits| ==> !hits[j]
  {
    if l != [] {
      assert d.largestTag == l[|l| - 1].f.tag by { assert Unfold(0); }
      forall j | 0 <= j < |l| ensures !hits[j] { NotAbove(d, l, j, |l| - 1, t); }
    }
  }

  lemma OrderRulesOut(d: Descriptor, l: seq<Entry>, s: nat, current: bv32, t: bv32, hits: seq<bool>)
    requires Describes(d, l) && s < |l| && current == l[s].f.tag && AreHits(hits, l, t) && t < current
    ensures forall j :: s <= j < |hits| ==> !hits[j]
  {
    forall j | s <= j < |l| ensures !hits[j] { NotBelow(d, l, s, j, t); }
  }

  lemma TagRulesOut(l: seq<Entry>, s: nat, current: bv32, t: bv32, hits: seq<bool>)
    requires s < |l| && current == l[s].f.tag && AreHits(hits, l, t) && t != current
    ensures !hits[s]
  {
    assert hits[s] == Hit(l[s], t);
  }

  lemma NoFields(d: Descriptor, l: seq<Entry>, current: bv32, t: bv32)
    requires Describes(d, l) && l == [] && current == 0
    ensures t != current ==> t > d.largestTag
  {
    assert Unfold(0);
  }

  lemma NotAbove(d: Descriptor, l: seq<Entry>, j: nat, k: nat, t: bv32)
    requires Describes(d, l) && j <= k < |l| && t > l[k].f.tag
    ensures !Hit(l[j], t)
  {
    if j < k { assert TagBelow(l[j], l[k]) by { assert Unfold(0); } }
  }

  lemma NotBelow(d: Descriptor, l: seq<Entry>, j: nat, k: nat, t: bv32)
    requires Describes(d, l) && j <= k < |l| && t < l[j].f.tag
    ensures !Hit(l[k], t)
  {
    if j < k { assert TagBelow(l[j], l[k]) by { assert Unfold(0); } }
  }

  ghost predicate IsExtensionAt(l: seq<Entry>, j: nat) { j < |l| && l[j].role.extension }

  /** No field from start to index is an extension, going round past the last field. */
  ghost predicate NonePassed(l: seq<Entry>, start: nat, index: nat) {
    forall u {:trigger Unfold(u)} :: u == 0 ==>
      if start <= index then forall j :: start <= j <= index ==> !IsExtensionAt(l, j)
      else forall j: nat :: j <= index || start <= j ==> !IsExtensionAt(l, j)
  }

  lemma NoneStarts(l: seq<Entry>, start: nat)
    requires !IsExtensionAt(l, start)
    ensures NonePassed(l, start, start)
  {}

  /** One step of the search; back at its start it has seen every field. */
  lemma NoneNext(l: seq<Entry>, start: nat, index: nat, next: nat)
    requires NonePassed(l, start, index) && !IsExtensionAt(l, next) && start <= |l|
    requires next == if index + 1 >= |l| then 0 else index + 1
    ensures if next == start then forall j: nat :: !IsExtensionAt(l, j) else NonePassed(l, start, next)
  {
    assert Unfold(0);
  }

  /** kind is the loaded type: that of field i, or zero in an empty message. */
  lemma RoleOfCurrent(d: Descriptor, l: seq<Entry>, i: nat, kind: bv32)
    requires Describes(d, l) && kind == if i < |l| then l[i].f.kind else 0
    ensures IsExtension(kind) == IsExtensionAt(l, i)
  {
    if i < |l| {
      assert GoodEntry(l[i]) by { assert Unfold(0); }
    }
  }

  /** An empty message still has the zero word that ends every descriptor. */
  lemma TrailingWord(d: Descriptor, l: seq<Entry>)
    requires Describes(d, l) && l == []
    ensures |d.info| == 1 && !IsExtension(WordKind(d.info[0]))
  {
    assert Unfold(0);
  }

  /** The outcome of the comparisons at the head of a search. */
  datatype Plan = Here | Nowhere | FromFirst | FromNext

  /** Compares the wanted tag with the current one, that of field s, and with the largest. */
  method PlanSearch(d: Descriptor, current: bv32, t: bv32, ghost l: seq<Entry>, ghost s: nat, ghost hits: seq<bool>)
    returns (plan: Plan)
    requires Describes(d, l) && AreHits(hits, l, t)
    requires current == if s < |l| then l[s].f.tag else 0
    requires s >= |l| ==> l == []
    ensures plan.Here? <==> current == t
    ensures plan.Nowhere? ==> forall j :: 0 <= j < |hits| ==> !hits[j]
    ensures plan.FromFirst? ==> forall j :: s <= j < |hits| ==> !hits[j]
    ensures plan.FromFirst? || plan.FromNext? ==> s < |l| && !hits[s]
  {
    if current == t {
      return Here;
    } else if t > d.largestTag {
      LargestRulesOut(d, l, t, hits);
      return Nowhere;
    }
    if s >= |l| { NoFields(d, l, current, t); }
    TagRulesOut(l, s, current, t, hits);
    if t < current {
      OrderRulesOut(d, l, s, current, t, hits);
      return FromFirst;
    }
    return FromNext;
  }

  // ---- The iterator ---------------------------------------------------------------------------

  class FieldIter {
    var descriptor: Descriptor
    var message: Option<int>
    var index: u16
    var fieldInfoIndex: u16
    var requiredFieldIndex: u16
    var submessageIndex: u16
    var tag: bv32
    var shape: Shape
    var pField: FieldPtr
    var pData: DataPtr
    var pSize: SizePtr
    var submsgDesc: Option<nat>
    /** The fields that the descriptor stands for. */
    ghost var fields: seq<Entry>

    ghost predicate Valid()
      reads this
    {
      Describes(descriptor, fields) && (message.None? ==> pData.NullData?)
    }

    /** The four indices are those of field i (of nothing, in an empty message). */
    ghost predicate At(i: nat)
      requires Valid()
      reads this
    {
      && index == i && i <= |fields| && (i < |fields| || i == 0)
      && fieldInfoIndex == Start(fields, i) && requiredFieldIndex == RequiredBefore(fields, i)
      && submessageIndex == SubmsgsBefore(fields, i)
    }

    /** The loaded values are those of field i; all zero in an empty message. */
    ghost predicate Loaded(i: nat)
      reads this
    {
      if i < |fields| then
        var f, role := fields[i].f, fields[i].role;
        && tag == f.tag && shape == ShapeOf(f)
        && pField == FieldPointer(f.dataOffset, message) && pSize == SizePointer(role, f.sizeOffset, pField)
        && pData == DataPointer(role, pField)
        && submsgDesc == (if role.submsg && SubmsgsBefore(fields, i) < |descriptor.submsgs|
                          then Some(descriptor.submsgs[SubmsgsBefore(fields, i)]) else None)
      else
        tag == 0 && shape == Shape(0, 0, 0)
    }

    method LoadDescriptorValues() returns (ok: bool)
      requires Valid() && At(index)
      modifies `tag, `shape, `pField, `pData, `pSize, `submsgDesc
      ensures Valid() && ok == (index < |fields|)
      ensures ok ==> Loaded(index)
      ensures !ok ==> unchanged(this)
    {
      if index >= descriptor.fieldCount {
        return false;
      }
      var f, role := ReadField(descriptor, fieldInfoIndex, fields, index);
      tag, shape := f.tag, ShapeOf(f);
      SetPointers(f, role);
      submsgDesc := None;
      if role.submsg {
        SubmsgInRange(descriptor, fields, index);
        submsgDesc := Some(descriptor.submsgs[submessageIndex]);
      }
      return true;
    }

    method SetPointers(f: Info, role: Role)
      requires Valid()
      modifies `pField, `pData, `pSize
      ensures Valid() && pField == FieldPointer(f.dataOffset, message)
            && pSize == SizePointer(role, f.sizeOffset, pField)
      ensures pData == DataPointer(role, pField)
    {
      if message.None? {
        pField := NullField;
        pSize := NullSize;
      } else {
        pField := FieldAt(message.value, f.dataOffset);
        if f.sizeOffset != 0 {
          pSize := Before(pField, f.sizeOffset);
        } else if role.repeated && (role.inline || role.pointer) {
          pSize := OwnArraySize;
        } else {
          pSize := NullSize;
        }
        if role.pointer {
          pData := DataVia(pField);
        } else {
          pData := DataAt(pField);
        }
      }
    }

    /** The field after i, circularly. */
    ghost function After(i: nat): nat
      reads this
    {
      if i + 1 >= |fields| then 0 else i + 1
    }

    method AdvanceIterator()
      requires Valid() && (At(index) || index == |fields|)
      modifies `index, `fieldInfoIndex, `requiredFieldIndex, `submessageIndex
      ensures At(After(old(index)))
    {
      ghost var i := index;
      index := index + 1;
      if index >= descriptor.fieldCount {
        index := 0;
        fieldInfoIndex := 0;
        submessageIndex := 0;
        requiredFieldIndex := 0;
      } else {
        var length, role, _ := ReadHead(descriptor, fieldInfoIndex, fields, i);
        assert Start(fields, i + 1) == fieldInfoIndex + length;
        var required := if role.required then 1 else 0;
        var submsg := if role.submsg then 1 else 0;
        StartMono(fields, 0, i + 1);
        fieldInfoIndex := (fieldInfoIndex + length) % 0x1_0000;
        requiredFieldIndex := (requiredFieldIndex + required) % 0x1_0000;
        submessageIndex := (submessageIndex + submsg) % 0x1_0000;
      }
    }

    method Clear(desc: Descriptor, msg: Option<int>, ghost l: seq<Entry>)
      requires Describes(desc, l)
      modifies this
      ensures Valid() && fields == l && descriptor == desc && message == msg && At(0) && tag == 0
            && shape == Shape(0, 0, 0)
    {
      descriptor, message, fields := desc, msg, l;
      index, fieldInfoIndex, requiredFieldIndex, submessageIndex := 0, 0, 0, 0;
      tag, shape := 0, Shape(0, 0, 0);
      pField, pData, pSize, submsgDesc := NullField, NullData, NullSize, None;
    }

    /** pb_field_iter_begin; l is the declared list behind desc. */
    method Begin(desc: Descriptor, msg: Option<int>, ghost l: seq<Entry>) returns (ok: bool)
      requires Describes(desc, l)
      modifies this
      ensures Valid() && fields == l && descriptor == desc && message == msg
      ensures ok == (l != []) && At(0) && Loaded(0)
    {
      Clear(desc, msg, l);
      ok := LoadDescriptorValues();
    }

    /** Steps to the next field in order; false when that wrapped around to the first. */
    method Next() returns (more: bool)
      requires Valid() && At(index) && Loaded(index)
      modifies `index, `fieldInfoIndex, `requiredFieldIndex, `submessageIndex
      modifies `tag, `shape, `pField, `pData, `pSize, `submsgDesc
      ensures Valid()
      ensures At(After(old(index))) && Loaded(index)
      ensures more == (old(index) + 1 < |fields|)
    {
      AdvanceIterator();
      var _ := LoadDescriptorValues();
      more := index != 0;
    }

    /** How many steps the circular search from field s has left. */
    ghost function StepsLeft(s: nat): int
      reads this
    {
      if index < s then s - index else |fields| - index + s + 1
    }

    /** One round of the search: advances, compares the low tag bits without loading, and if they agree loads
        the field to compare the rest. */
    method AdvanceAndCheck(t: bv32) returns (hit: bool)
      requires Valid() && fields != [] && (At(index) || index == |fields|)
      modifies `index, `fieldInfoIndex, `requiredFieldIndex, `submessageIndex
      modifies `tag, `shape, `pField, `pData, `pSize, `submsgDesc
      ensures Valid() && At(After(old(index))) && hit == Hit(fields[index], t)
      ensures hit ==> Loaded(index)
    {
      AdvanceIterator();
      var _, role, low := ReadHead(descriptor, fieldInfoIndex, fields, index);
      if low == LowTag(t) {
        var _ := LoadDescriptorValues();
        return tag == t && !role.extension;
      }
      return false;
    }

    /** The circular search: from the field after start, or from the first field when every field from start
        on has a larger tag. */
    method SearchFrom(start: u16, t: bv32, ghost hits: seq<bool>) returns (found: bool)
      requires Valid() && start < |fields| == |hits|
      requires index == |fields| || At(start)
      requires AreHits(hits, fields, t)
      requires !hits[start] && (index == |fields| ==> forall j :: start <= j < |hits| ==> !hits[j])
      modifies `index, `fieldInfoIndex, `requiredFieldIndex, `submessageIndex
      modifies `tag, `shape, `pField, `pData, `pSize, `submsgDesc
      ensures Valid()
      ensures found <==> exists j :: 0 <= j < |hits| && hits[j]
      ensures index < |fields| && (if found then hits[index] else index == start)
      ensures At(index) && Loaded(index)
    {
      while true
        invariant Valid()
        invariant index == |fields| || At(index)
        invariant index == |fields| ==> forall j :: start < j < |hits| ==> !hits[j]
        invariant start <= index < |fields| ==> forall j :: start < j <= index ==> !hits[j]
        invariant index < start ==> forall j :: 0 <= j <= index ==> !hits[j]
        invariant index < start ==> forall j :: start < j < |hits| ==> !hits[j]
        decreases StepsLeft(start)
      {
        var hit := AdvanceAndCheck(t);
        assert hit == hits[index];
        if hit {
          return true;
        }
        if index == start { break; }
      }
      var _ := LoadDescriptorValues();
      return false;
    }

    /** From any position: true with the iterator on a field of that tag, if there is one, or if the
        iterator was on it to begin with (the only way to find an extension field); otherwise false and back
        where it was. */
    method Find(t: bv32) returns (found: bool)
      requires Valid() && At(index) && Loaded(index)
      modifies `index, `fieldInfoIndex, `requiredFieldIndex, `submessageIndex
      modifies `tag, `shape, `pField, `pData, `pSize, `submsgDesc
      ensures Valid()
      ensures found <==> old(tag) == t || exists j: nat :: Matches(fields, j, t)
      ensures found ==> tag == t && (index == old(index) || Matches(fields, index, t))
      ensures !found ==> index == old(index)
      ensures At(index) && Loaded(index)
    {
      ghost var hits := Hits(fields, t);
      HitsMatch(hits, fields, t);
      var plan := PlanSearch(descriptor, tag, t, fields, index, hits);
      if plan == Here {
        return true;
      } else if plan == Nowhere {
        return false;
      }
      var start := index;
      if plan == FromFirst {
        index := descriptor.fieldCount;
      }
      found := SearchFrom(start, t, hits);
    }

    /** Advances and says whether the field reached is an extension, without loading it. */
    method AdvanceAndTest() returns (extension: bool)
      requires Valid() && At(index)
      modifies `index, `fieldInfoIndex, `requiredFieldIndex, `submessageIndex
      ensures Valid() && At(After(old(index))) && extension == IsExtensionAt(fields, index)
    {
      AdvanceIterator();
      if index < descriptor.fieldCount {
        var _, role, _ := ReadHead(descriptor, fieldInfoIndex, fields, index);
        extension := role.extension;
      } else {
        TrailingWord(descriptor, fields);
        extension := IsExtension(WordKind(descriptor.info[fieldInfoIndex]));
      }
    }

    /** From any position: true with the iterator on an extension field, the current one if it is one; false
        and back where it was if there is none. */
    method FindExtension() returns (found: bool)
      requires Valid() && At(index) && Loaded(index)
      modifies `index, `fieldInfoIndex, `requiredFieldIndex, `submessageIndex
      modifies `tag, `shape, `pField, `pData, `pSize, `submsgDesc
      ensures Valid()
      ensures found <==> exists j: nat :: IsExtensionAt(fields, j)
      ensures if found then IsExtensionAt(fields, index) else index == old(index)
      ensures IsExtensionAt(fields, old(index)) ==> index == old(index)
      ensures At(index) && Loaded(index)
    {
      RoleOfCurrent(descriptor, fields, index, shape.kind);
      if IsExtension(shape.kind) {
        return true;
      }
      var hit := ScanForExtension(index);
      found := LoadDescriptorValues();
      found := found && hit;
    }

    /** The circular search for an extension field, which loads nothing. */
    method ScanForExtension(start: u16) returns (hit: bool)
      requires Valid() && At(start) && index == start && !IsExtensionAt(fields, start)
      modifies `index, `fieldInfoIndex, `requiredFieldIndex, `submessageIndex
      ensures Valid() && At(index)
      ensures hit <==> exists j: nat :: IsExtensionAt(fields, j)
      ensures if hit then IsExtensionAt(fields, index) else index == start
    {
      NoneStarts(fields, start);
      while true
        invariant Valid() && At(index) && NonePassed(fields, start, index)
        decreases StepsLeft(start)
      {
        ghost var before := index;
        hit := AdvanceAndTest();
        if hit { return; }
        NoneNext(fields, start, before, index);
        if index == start { return; }
      }
    }
  }
}
