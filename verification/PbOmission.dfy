/** Which fields an encoding has: the tags that stand in its bytes, in order. A field without a presence member is left
    out exactly when its value is zero or empty, a submessage when it would encode to nothing. */
module PbOmission {
  import opened Words
  import opened PbVarint
  import opened PbStream
  import opened PbModel
  import opened PbEncode
  import opened PbDecodeSpec
  import opened PbUnknown
  import opened PbForward

  // ---- The tags in a byte string -------------------------------------------------------------------------

  /** The number and the length of the field that s starts with. */
  function First(s: seq<u8>): (r: Option<(nat, nat)>)
    ensures r.Some? ==> 1 <= r.value.1 <= |s|
  {
    match ReadTag(s)
    case None => None
    case Some((tag, n)) =>
      match FieldExtent(tag.wireType, s[n..]) case None => None case Some(k) => Some((tag.number, n + k))
  }

  /** The field numbers of the whole fields that s is made of. */
  function Tags(s: seq<u8>): Option<seq<nat>>
    decreases |s|
  {
    if s == [] then Some([])
    else match First(s)
         case None => None
         case Some((number, n)) => match Tags(s[n..]) case None => None case Some(more) => Some([number] + more)
  }

  ghost predicate FirstIs(s: seq<u8>, number: nat, n: nat) {
    forall u {:trigger Unfold(u)} :: u == 0 ==> First(s) == Some((number, n))
  }

  ghost predicate TagsAre(s: seq<u8>, tags: seq<nat>) {
    forall u {:trigger Unfold(u)} :: u == 0 ==> Tags(s) == Some(tags)
  }

  lemma TagsStep(s: seq<u8>, number: nat, n: nat, rest: seq<u8>, more: seq<nat>)
    requires FirstIs(s, number, n) && n <= |s| && rest == s[n..] && TagsAre(rest, more)
    ensures TagsAre(s, [number] + more)
  {
    assert Unfold(0);
    assert s != [];
  }

  lemma NoTags(s: seq<u8>, tags: seq<nat>)
    requires s == [] && tags == []
    ensures TagsAre(s, tags)
  {
    assert Tags(s) == Some(tags);
  }

  lemma FirstExtends(a: seq<u8>, b: seq<u8>, number: nat, n: nat)
    requires FirstIs(a, number, n)
    ensures FirstIs(a + b, number, n)
  {
    assert Unfold(0);
    var (tag, k) := ReadTag(a).value;
    VarintExtends(a, b);
    ExtentOfFieldExtends(tag.wireType, a[k..], b);
    var e := FieldExtent(tag.wireType, a[k..]).value;
    FirstBy(a, tag, k, a[k..], e);
    assert (a + b)[k..] == a[k..] + b;
    FirstBy(a + b, tag, k, a[k..] + b, e);
  }

  lemma FirstBy(s: seq<u8>, tag: Tag, k: nat, rest: seq<u8>, e: nat)
    requires ReadTag(s) == Some((tag, k)) && k <= |s| && rest == s[k..] && FieldExtent(tag.wireType, rest) == Some(e)
    ensures First(s) == Some((tag.number, k + e))
  {}

  /** A tag and data of its extent. */
  lemma TagsOfOne(number: nat, wt: nat, p: seq<u8>)
    requires number < 0x2000_0000 && wt < 8 && FieldExtent(wt, p) == Some(|p|)
    ensures TagsAre(TagBytes(Tag(number, wt)) + p, [number])
  {
    var tag := Tag(number, wt);
    var tb := TagBytes(tag);
    TagRoundTrip(tag, p);
    assert (tb + p)[|tb|..] == p && (tb + p)[|tb + p|..] == [];
    assert First(tb + p) == Some((number, |tb + p|));
    NoTags([], []);
    TagsStep(tb + p, number, |tb + p|, [], []);
    assert [number] + [] == [number];
  }

  /** Fields, and the fields after them. */
  lemma {:induction false} TagsSplit(a: seq<u8>, x: seq<nat>, b: seq<u8>, y: seq<nat>)
    requires TagsAre(a, x) && TagsAre(b, y)
    ensures TagsAre(a + b, x + y)
    decreases |a|
  {
    if a == [] {
      NoneFirst(a, x);
      assert a + b == b && x + y == y;
    } else {
      var number, n, more := Split(a, x);
      var rest := a[n..];
      TagsSplit(rest, more, b, y);
      FirstExtends(a, b, number, n);
      assert (a + b)[n..] == rest + b;
      TagsStep(a + b, number, n, rest + b, more + y);
      assert [number] + (more + y) == x + y;
    }
  }

  lemma NoneFirst(a: seq<u8>, x: seq<nat>)
    requires a == [] && TagsAre(a, x)
    ensures x == []
  {
    assert Unfold(0);
  }

  lemma Split(a: seq<u8>, x: seq<nat>) returns (number: nat, n: nat, more: seq<nat>)
    requires a != [] && TagsAre(a, x)
    ensures 1 <= n <= |a| && FirstIs(a, number, n) && TagsAre(a[n..], more) && x == [number] + more
  {
    assert Unfold(0);
    var (q, k) := First(a).value;
    number, n := q, k;
    more := Tags(a[n..]).value;
  }

  // ---- What is left out ----------------------------------------------------------------------------------

  /** Zero, an empty string, or a message that encodes to nothing. */
  predicate Blank(f: Field, v: Value)
    requires TypedValue(f, v)
  {
    match v
    case VInt(n) => n == 0
    case VBytes(b) => b == []
    case VMsg(slots) => EncMsg(f.ltype.sub, slots) == Some([])
  }

  /** n times the same number. */
  function Times(number: nat, n: nat): (r: seq<nat>) { seq(n, _ => number) }

  /** The field numbers that one field of a message is written with. */
  function Listed(d: MsgDesc, f: Field, s: Slot): seq<nat>
    requires TypedSlot(f, s)
  {
    match s
    case Single(v) => if f.htype.Required? || d.hasDefaults || !Blank(f, v) then [f.tag] else []
    case Opt(has, _) => if has then [f.tag] else []
    case Member(chosen, _) => if chosen then [f.tag] else []
    case Rep(items) => if f.ltype.Packable() then Times(f.tag, if items == [] then 0 else 1) else Times(f.tag, |items|)
    case Fixed(items) => if f.ltype.Packable() then [f.tag] else Times(f.tag, |items|)
  }

  function ListedUpTo(d: MsgDesc, m: seq<Slot>, k: nat): seq<nat>
    requires Typed(d, m) && k <= |m|
  {
    if k == 0 then [] else ListedUpTo(d, m, k - 1) + Listed(d, d.fields[k - 1], m[k - 1])
  }

  lemma {:induction false} SomethingWritten(f: Field, items: seq<Value>, k: nat)
    requires TypedItems(f, items) && 1 <= k <= |items| && EncItems(f, items, k).Some?
    ensures EncItems(f, items, k).value != []
  {
    assert |FieldTag(f)| >= 1;
  }

  /** The rule the encoder applies leaves out exactly what would encode to nothing. */
  lemma {:induction false} LeftOutIff(d: MsgDesc, f: Field, s: Slot)
    requires GoodField(f) && TypedSlot(f, s)
    ensures IsDefault(d, f, s) <==> EncSlot(d, f, s) == Some([])
  {
    if f.htype.Repeated? || f.htype.FixArray? {
      assert TypedItems(f, s.items) && EncSlot(d, f, s) == EncArray(f, s.items);
      ArrayLeftOut(f, s.items);
    } else {
      assert TypedValue(f, s.v);
      assert |FieldTag(f)| >= 1;
    }
  }

  lemma {:induction false} ArrayLeftOut(f: Field, items: seq<Value>)
    requires TypedItems(f, items)
    ensures EncArray(f, items) == Some([]) <==> items == []
  {
    if EncArray(f, items).Some? && items != [] && !f.ltype.Packable() {
      assert EncItems(f, items, |items|).Some?;
      SomethingWritten(f, items, |items|);
    }
  }

  /** A message encodes to nothing exactly when each of its fields does. */
  lemma {:induction false} NothingIff(d: MsgDesc, m: seq<Slot>, k: nat)
    requires GoodDesc(d) && Typed(d, m) && k <= |m|
    ensures EncUpTo(d, m, k) == Some([]) <==> forall i :: 0 <= i < k ==> IsDefault(d, d.fields[i], m[i])
  {
    if k > 0 {
      NothingIff(d, m, k - 1);
      assert GoodField(d.fields[k - 1]) && TypedSlot(d.fields[k - 1], m[k - 1]);
      LeftOutIff(d, d.fields[k - 1], m[k - 1]);
      assert EncUpTo(d, m, k) == Some([]) <==>
             EncUpTo(d, m, k - 1) == Some([]) && EncSlot(d, d.fields[k - 1], m[k - 1]) == Some([]);
    }
  }

  lemma {:induction false} BlankIff(d: MsgDesc, f: Field, s: Slot)
    requires GoodField(f) && TypedSlot(f, s) && f.htype.Singular? && !d.hasDefaults
    ensures IsDefault(d, f, s) <==> Blank(f, s.v)
  {
    assert TypedValue(f, s.v);
    if f.ltype.LSubmsg? { NothingIff(f.ltype.sub, s.v.slots, |s.v.slots|); }
  }

  // ---- The tags of an encoding ---------------------------------------------------------------------------

  lemma {:induction false} TaggedTags(f: Field, v: Value)
    requires GoodField(f) && TypedValue(f, v) && EncTagged(f, v).Some? && |EncTagged(f, v).value| < TWO32
    ensures TagsAre(EncTagged(f, v).value, [f.tag])
  {
    var p := EncValue(f, v).value;
    ValueExtent(f, v);
    TagsOfOne(f.tag, WireType(f.ltype), p);
  }

  lemma {:induction false} ItemsTags(f: Field, items: seq<Value>, k: nat)
    requires GoodField(f) && TypedItems(f, items) && k <= |items|
    requires EncItems(f, items, k).Some? && |EncItems(f, items, k).value| < TWO32
    ensures TagsAre(EncItems(f, items, k).value, Times(f.tag, k))
    decreases k
  {
    if k == 0 {
      NoTags([], Times(f.tag, 0));
    } else {
      assert TypedValue(f, items[k - 1]);
      ItemsTags(f, items, k - 1);
      TaggedTags(f, items[k - 1]);
      TagsSplit(EncItems(f, items, k - 1).value, Times(f.tag, k - 1), EncTagged(f, items[k - 1]).value, [f.tag]);
      assert Times(f.tag, k) == Times(f.tag, k - 1) + [f.tag];
    }
  }

  lemma {:induction false} PackedTags(f: Field, items: seq<Value>)
    requires GoodField(f) && f.ltype.Packable() && TypedItems(f, items)
    requires EncPacked(f, items).Some? && |EncPacked(f, items).value| < TWO32
    ensures TagsAre(EncPacked(f, items).value, [f.tag])
  {
    var p := Payload(f, items, |items|).value;
    BlockExtent(p);
    TagsOfOne(f.tag, WT_STRING, LengthPrefixed(p));
  }

  lemma {:induction false} SlotTags(d: MsgDesc, f: Field, s: Slot)
    requires GoodField(f) && TypedSlot(f, s) && EncSlot(d, f, s).Some? && |EncSlot(d, f, s).value| < TWO32
    ensures TagsAre(EncSlot(d, f, s).value, Listed(d, f, s))
  {
    if IsArray(f) {
      assert TypedItems(f, s.items) && EncSlot(d, f, s) == EncArray(f, s.items);
      ArrayTags(f, s.items);
      assert Times(f.tag, 1) == [f.tag];
    } else if EncSlot(d, f, s) == Some([]) {
      NothingListed(d, f, s);
      NoTags([], Listed(d, f, s));
    } else {
      TaggedTags(f, s.v);
      if f.htype.Singular? && !d.hasDefaults { BlankIff(d, f, s); }
    }
  }

  lemma {:induction false} NothingListed(d: MsgDesc, f: Field, s: Slot)
    requires GoodField(f) && TypedSlot(f, s) && !IsArray(f) && EncSlot(d, f, s) == Some([])
    ensures Listed(d, f, s) == []
  {
    LeftOutIff(d, f, s);
    if f.htype.Singular? && !d.hasDefaults { BlankIff(d, f, s); }
  }

  lemma {:induction false} ArrayTags(f: Field, items: seq<Value>)
    requires GoodField(f) && TypedItems(f, items) && EncArray(f, items).Some? && |EncArray(f, items).value| < TWO32
    ensures TagsAre(EncArray(f, items).value, Times(f.tag, if f.ltype.Packable() && items != [] then 1 else |items|))
  {
    if items == [] {
      NoTags([], Times(f.tag, 0));
    } else if f.ltype.Packable() {
      PackedTags(f, items);
      assert Times(f.tag, 1) == [f.tag];
    } else {
      ItemsTags(f, items, |items|);
    }
  }

  lemma {:induction false} TagsUpTo(d: MsgDesc, m: seq<Slot>, k: nat)
    requires GoodDesc(d) && Typed(d, m) && k <= |m|
    requires EncUpTo(d, m, k).Some? && |EncUpTo(d, m, k).value| < TWO32
    ensures TagsAre(EncUpTo(d, m, k).value, ListedUpTo(d, m, k))
    decreases k
  {
    if k == 0 {
      NoTags([], []);
    } else {
      var f, s := d.fields[k - 1], m[k - 1];
      assert GoodField(f) && TypedSlot(f, s);
      TagsUpTo(d, m, k - 1);
      SlotTags(d, f, s);
      TagsSplit(EncUpTo(d, m, k - 1).value, ListedUpTo(d, m, k - 1), EncSlot(d, f, s).value, Listed(d, f, s));
    }
  }

  /** The tags that stand in an encoding: of the fields in their order, a required field once, an optional one or a
      union member if it is there, an element of an unpacked array each once, a packed array once unless it is empty,
      and a field without a presence member exactly when its value is not blank. */
  lemma {:induction false} TagsOfEncoding(d: MsgDesc, m: seq<Slot>)
    requires GoodDesc(d) && Typed(d, m) && EncMsg(d, m).Some? && |EncMsg(d, m).value| < TWO32
    ensures Tags(EncMsg(d, m).value) == Some(ListedUpTo(d, m, |m|))
  {
    TagsUpTo(d, m, |m|);
    assert Unfold(0);
  }

  // ---- One field -------------------------------------------------------------------------------------------

  lemma {:induction false} ListedIs(d: MsgDesc, m: seq<Slot>, k: nat, i: nat)
    requires Typed(d, m) && k <= |m| && i < |m| && SortedDesc(d) && TypedSlot(d.fields[i], m[i])
    ensures d.fields[i].tag in ListedUpTo(d, m, k) <==> i < k && Listed(d, d.fields[i], m[i]) != []
    decreases k
  {
    if k > 0 {
      ListedIs(d, m, k - 1, i);
      ListedAlone(d, d.fields[k - 1], m[k - 1]);
    }
  }

  lemma ListedAlone(d: MsgDesc, f: Field, s: Slot)
    requires TypedSlot(f, s)
    ensures forall x :: x in Listed(d, f, s) ==> x == f.tag
    ensures Listed(d, f, s) != [] ==> f.tag in Listed(d, f, s)
  {
    if Listed(d, f, s) != [] { assert Listed(d, f, s)[0] == f.tag; }
  }

  /** A field without a presence member is in the bytes exactly when its value is not blank. */
  lemma {:induction false} WrittenUnlessBlank(d: MsgDesc, m: seq<Slot>, i: nat)
    requires GoodDesc(d) && SortedDesc(d) && Typed(d, m) && !d.hasDefaults && i < |m|
    requires d.fields[i].htype.Singular? && TypedSlot(d.fields[i], m[i])
    requires EncMsg(d, m).Some? && |EncMsg(d, m).value| < TWO32
    ensures var tags := Tags(EncMsg(d, m).value);
            tags.Some? && (d.fields[i].tag in tags.value <==> !Blank(d.fields[i], m[i].v))
  {
    TagsOfEncoding(d, m);
    ListedIs(d, m, |m|, i);
  }

  // ---- A message of zeros ------------------------------------------------------------------------------------

  /** A descriptor whose cleared structure has nothing to write. */
  predicate Silent(d: MsgDesc)
    decreases d
  {
    forall i :: 0 <= i < |d.fields| ==> SilentField(d.fields[i], d.hasDefaults)
  }

  predicate SilentField(f: Field, hasDefaults: bool)
    decreases f
  {
    match f.htype
    case Required | FixArray => false
    case Singular =>
      !hasDefaults && (f.ltype.LFixedBytes? ==> f.dataSize == 0) && (f.ltype.LSubmsg? ==> Silent(f.ltype.sub))
    case _ => true
  }

  lemma {:induction false} ZeroMsgTyped(d: MsgDesc)
    requires GoodDesc(d)
    ensures Typed(d, ZeroMsg(d))
  {
    forall i | 0 <= i < |d.fields| ensures TypedSlot(d.fields[i], ZeroSlot(d.fields[i])) { ZeroTyped(d.fields[i]); }
  }

  /** Zeros encode to nothing exactly when no field, at any depth, has to be written whatever it holds. */
  lemma {:induction false} ZerosAreSilent(d: MsgDesc)
    requires GoodDesc(d)
    ensures Typed(d, ZeroMsg(d)) && (EncMsg(d, ZeroMsg(d)) == Some([]) <==> Silent(d))
    decreases d
  {
    ZeroMsgTyped(d);
    var z := ZeroMsg(d);
    forall i | 0 <= i < |d.fields|
      ensures IsDefault(d, d.fields[i], z[i]) <==> SilentField(d.fields[i], d.hasDefaults)
    {
      assert GoodField(d.fields[i]) && TypedSlot(d.fields[i], z[i]) && d.fields[i] < d;
      ZeroIsSilent(d, d.fields[i]);
    }
    NothingIff(d, z, |z|);
  }

  lemma {:induction false} ZeroIsSilent(d: MsgDesc, f: Field)
    requires GoodField(f) && TypedSlot(f, ZeroSlot(f))
    ensures IsDefault(d, f, ZeroSlot(f)) <==> SilentField(f, d.hasDefaults)
    decreases f
  {
    if f.htype.Singular? && f.ltype.LSubmsg? {
      var sub := f.ltype.sub;
      var z := ZeroMsg(sub);
      assert ZeroSlot(f) == Single(VMsg(z));
      ZerosAreSilent(sub);
      assert TypedValue(f, VMsg(z));
      NothingIff(sub, z, |z|);
      assert IsDefault(d, f, ZeroSlot(f)) <==> !d.hasDefaults && AllDefault(sub, z);
    }
  }
}
