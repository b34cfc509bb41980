/** What the decoder makes of input that its own encoder would not write: numbers in more bytes than they need, fields
    twice or under another wire type, numbers too large for their field, records cut short, fields missing. */
module PbAccepted {
  import opened Words
  import opened PbVarint
  import opened PbStream
  import opened PbModel
  import opened PbDecodeSpec
  import opened PbUnknown
  import opened PbForward
  import opened PbEncode
  import opened PbRoundTrip
  import opened PbOmission

  // ---- Varints -------------------------------------------------------------------------------------------

  lemma {:induction false} LastGroup(s: seq<u8>, n: nat)
    requires 1 <= n <= |s|
    ensures Base128(s[..n]) == Base128(s[..n - 1]) + s[n - 1] % 128 * Pow2(7 * (n - 1))
    decreases n
  {
    if n == 1 {
      assert s[..1][1..] == [] && s[..0] == [];
    } else {
      var t := s[1..];
      LastGroup(t, n - 1);
      assert s[..n][1..] == t[..n - 1] && s[..n - 1][1..] == t[..n - 2] && t[n - 2] == s[n - 1];
      Pow2Add(7, 7 * (n - 2));
      Pow2Constants();
      Shifted(s[n - 1] % 128, Pow2(7 * (n - 2)), Pow2(7 * (n - 1)));
    }
  }

  lemma Shifted(g: nat, w: nat, w': nat)
    requires w' == 128 * w
    ensures 128 * (g * w) == g * w'
  {}

  lemma {:induction false} GroupsBelow(s: seq<u8>, n: nat)
    requires n <= |s|
    ensures Base128(s[..n]) < Pow2(7 * n)
    decreases n
  {
    if n > 0 {
      LastGroup(s, n);
      GroupsBelow(s, n - 1);
      Pow2Add(7, 7 * (n - 1));
      Pow2Constants();
      var w := Pow2(7 * (n - 1));
      TopBelow(s[n - 1] % 128, w);
    }
  }

  lemma TopBelow(g: nat, w: nat)
    requires g < 128
    ensures w + g * w <= 128 * w
  {
    assert (g + 1) * w <= 128 * w;
  }

  /** A varint is read exactly when it ends within ten bytes and denotes a 64-bit number. */
  lemma VarintAccepted(s: seq<u8>, v: nat, n: nat)
    ensures ReadVarint(s) == Some((v, n)) <==>
              && 1 <= n <= 10 && n <= |s| && s[n - 1] < 128 && (forall i :: 0 <= i < n - 1 ==> s[i] >= 128)
              && Base128(s[..n]) == v && v < TWO64
  {
    if 1 <= n <= 10 && n <= |s| && s[n - 1] < 128 && forall i :: 0 <= i < n - 1 ==> s[i] >= 128 {
      ExtentIs(s, n);
      Tenth(s, n);
    } else if Extent(s).Some? {
      assert Extent(s).value != n || n > 10;
    }
  }

  lemma Tenth(s: seq<u8>, n: nat)
    requires 1 <= n <= 10 && n <= |s| && s[n - 1] < 128
    ensures Base128(s[..n]) < TWO64 <==> n < 10 || s[9] <= 1
  {
    var nine := 9;
    assert Pow2(7 * nine) == 0x8000_0000_0000_0000 by { Pow2Constants(); }
    if n == 10 {
      LastGroup(s, nine + 1);
      GroupsBelow(s, nine);
    } else {
      GroupsBelow(s, n);
      Pow2Mono(7 * n, 7 * nine);
    }
  }

  /** v in n bytes, with zero groups on top. */
  function Padded(v: nat, n: nat): (s: seq<u8>)
    requires n >= 1
    ensures |s| == n
  {
    if n == 1 then [v % 128] else [128 + v % 128] + Padded(v / 128, n - 1)
  }

  lemma {:induction false} PaddedValue(v: nat, n: nat)
    requires n >= 1 && v < Pow2(7 * n)
    ensures Base128(Padded(v, n)) == v
  {
    var s := Padded(v, n);
    Pow2Constants();
    if n == 1 {
      assert s[1..] == [];
      assert Pow2(7 * n) == 128;
    } else {
      Pow2Add(7, 7 * (n - 1));
      Lower(v, Pow2(7 * (n - 1)));
      PaddedValue(v / 128, n - 1);
      assert s[1..] == Padded(v / 128, n - 1);
    }
  }

  lemma Lower(v: nat, w: nat)
    requires v < 128 * w
    ensures v / 128 < w
  {}

  lemma {:induction false} PaddedEnds(v: nat, n: nat)
    requires n >= 1
    ensures Padded(v, n)[n - 1] < 128 && forall i :: 0 <= i < n - 1 ==> Padded(v, n)[i] >= 128
  {
    if n > 1 { PaddedEnds(v / 128, n - 1); }
  }

  lemma {:induction false} GroupOf(v: nat, n: nat, i: nat)
    requires i < n
    ensures Padded(v, n)[i] % 128 == v / Pow2(7 * i) % 128
    decreases i
  {
    Pow2Constants();
    if i > 0 {
      GroupOf(v / 128, n - 1, i - 1);
      Pow2Add(7, 7 * (i - 1));
      DivDiv(v, 128, Pow2(7 * (i - 1)));
    } else {
      assert Pow2(7 * i) == 1;
    }
  }

  lemma ZeroGroup(v: nat, n: nat, i: nat)
    requires 5 <= i < n && v < 0x8_0000_0000
    ensures Padded(v, n)[i] % 128 == 0
  {
    var five := 5;
    assert Pow2(7 * five) == 0x8_0000_0000 by { Pow2Constants(); }
    Pow2Mono(7 * five, 7 * i);
    GroupOf(v, n, i);
    DivUnique(v, Pow2(7 * i), 0, v);
  }

  lemma FifthOf(v: u32, n: nat)
    requires n >= 5
    ensures !BadFifth(Padded(v, n)[4])
  {
    var four := 4;
    assert Pow2(7 * four) == 0x1000_0000 by { Pow2Constants(); }
    GroupOf(v, n, four);
    Bits(Padded(v, n)[4], v / 0x1000_0000);
  }

  lemma Bits(b: u8, g: nat)
    requires b % 128 == g % 128 && g < 16
    ensures b / 16 % 8 == 0
  {}

  /** Any number is read from any of its forms of up to ten bytes, and a number of 32 bits from each of them by the
      narrow reader too. */
  lemma {:induction false} PaddedReads(v: u64, n: nat, rest: seq<u8>)
    requires 1 <= n <= 10 && v < Pow2(7 * n)
    ensures ReadVarint(Padded(v, n) + rest) == Some((v, n))
    ensures v < TWO32 ==> ReadVarint32(Padded(v, n) + rest) == Some((v, n))
  {
    var p := Padded(v, n);
    var s := p + rest;
    PaddedValue(v, n);
    PaddedEnds(v, n);
    assert s[..n] == p;
    VarintAccepted(s, v, n);
    ExtentIs(s, n);
    if v < TWO32 { PaddedNarrow(v, n, s); }
  }

  lemma PaddedNarrow(v: u32, n: nat, s: seq<u8>)
    requires 1 <= n <= 10 && |s| >= n && s[..n] == Padded(v, n) && Extent(s) == Some(n) && Base128(s[..n]) == v
    ensures ReadVarint32(s) == Some((v, n))
  {
    if n >= 5 {
      FifthOf(v, n);
      assert s[4] == s[..n][4];
    }
    forall i | 5 <= i < n ensures SignExtension(i, s[i], v >= 0x8000_0000) {
      ZeroGroup(v, n, i);
      assert s[i] == s[..n][i];
    }
    assert Low32(v) == v && Extended(s, n, v >= 0x8000_0000);
    NarrowIs(s, v, n);
  }

  lemma NarrowIs(s: seq<u8>, v: nat, n: nat)
    requires Extent(s) == Some(n) && n <= 10 && Low32(Base128(s[..n])) == v && (n >= 5 ==> !BadFifth(s[4]))
    requires Extended(s, n, v >= 0x8000_0000)
    ensures ReadVarint32(s) == Some((v, n))
  {}

  // ---- Numbers -------------------------------------------------------------------------------------------

  /** A number of up to 32 bits is the signed value of the low 32 bits of what was sent, whatever the bits above them: a
      negative one may come in five bytes or in ten. It is refused when it does not fit its field. */
  lemma SignedRead(f: Field, s: seq<u8>, start: Value, u: nat, n: nat, k: int)
    requires f.ltype.LVarint? && IntSize(f.dataSize) && ReadVarint(s) == Some((u, n))
    requires if f.dataSize == 8 then -0x8000_0000_0000_0000 <= k < 0x8000_0000_0000_0000 && (u - k) % TWO64 == 0
             else -0x8000_0000 <= k < 0x8000_0000 && (u - k) % TWO32 == 0
    ensures DecValue(f, s, start)
         == if -(IntRange(f.dataSize) / 2) <= k < IntRange(f.dataSize) / 2 then Some((VInt(k), n)) else None
  {
    VarintAccepted(s, u, n);
    if f.dataSize == 8 { Wide(u, k); } else { Narrow(u, k); }
  }

  lemma Wide(u: u64, k: int)
    requires -0x8000_0000_0000_0000 <= k < 0x8000_0000_0000_0000 && (u - k) % TWO64 == 0
    ensures ToI64(u) == k
  {}

  lemma Narrow(u: nat, k: int)
    requires -0x8000_0000 <= k < 0x8000_0000 && (u - k) % TWO32 == 0
    ensures ToI32(u) == k
  {}

  lemma UnsignedRead(f: Field, s: seq<u8>, start: Value, u: nat, n: nat)
    requires f.ltype.LUVarint? && IntSize(f.dataSize) && ReadVarint(s) == Some((u, n))
    ensures DecValue(f, s, start) == if u < Pow2(8 * f.dataSize) then Some((VInt(u), n)) else None
  {
    var w := 8 * f.dataSize;
    assert Pow2(w) == IntRange(f.dataSize) by { Pow2Constants(); }
  }

  /** 0, -1, 1, -2 and so on are sent as 0, 1, 2, 3. */
  lemma ZigZagRead(f: Field, s: seq<u8>, start: Value, u: nat, n: nat, k: int)
    requires f.ltype.LSVarint? && IntSize(f.dataSize) && ReadVarint(s) == Some((u, n))
    requires u == if k >= 0 then k + k else -k - k - 1
    ensures DecValue(f, s, start)
         == if -(IntRange(f.dataSize) / 2) <= k < IntRange(f.dataSize) / 2 then Some((VInt(k), n)) else None
  {}

  /** Any number but 0 is true. */
  lemma BoolRead(f: Field, s: seq<u8>, start: Value, u: nat, n: nat)
    requires f.ltype.LBool? && ReadVarint32(s) == Some((u, n))
    ensures DecValue(f, s, start) == Some((VInt(if u == 0 then 0 else 1), n))
  {}

  // ---- Strings and bytes ----------------------------------------------------------------------------------

  /** Bytes within their buffer are taken as they are, and others refused. */
  lemma BytesRead(f: Field, b: seq<u8>, start: Value, rest: seq<u8>)
    requires f.ltype.LBytes? && GoodField(f) && |b| < TWO32
    ensures DecValue(f, LengthPrefixed(b) + rest, start)
         == if |b| + 2 <= f.dataSize then Some((VBytes(b), |LengthPrefixed(b)|)) else None
  {
    BlockRoundTrip(b, rest);
  }

  /** A string that fits with its terminator is taken up to the first NUL in it, and one that does not is refused. */
  lemma StringRead(f: Field, b: seq<u8>, start: Value, rest: seq<u8>, k: nat)
    requires f.ltype.LString? && GoodField(f) && |b| < TWO32
    requires k <= |b| && (k < |b| ==> b[k] == 0) && forall i :: 0 <= i < k ==> b[i] != 0
    ensures DecValue(f, LengthPrefixed(b) + rest, start)
         == if |b| < f.dataSize then Some((VBytes(b[..k]), |LengthPrefixed(b)|)) else None
  {
    BlockRoundTrip(b, rest);
    UpToNul(b, k);
  }

  lemma {:induction false} UpToNul(b: seq<u8>, k: nat)
    requires k <= |b| && (k < |b| ==> b[k] == 0) && forall i :: 0 <= i < k ==> b[i] != 0
    ensures CString(b) == b[..k]
    decreases k
  {
    if k > 0 {
      UpToNul(b[1..], k - 1);
      assert b[..k] == [b[0]] + b[1..][..k - 1];
    }
  }

  /** Bytes of a fixed length come in that length, or in none, which stands for zeros. */
  lemma FixedLengthRead(f: Field, b: seq<u8>, start: Value, rest: seq<u8>)
    requires f.ltype.LFixedBytes? && GoodField(f) && |b| < TWO32
    ensures DecValue(f, LengthPrefixed(b) + rest, start)
         == if |b| == f.dataSize || |b| == 0
            then Some((VBytes(if |b| == 0 then seq(f.dataSize, _ => 0) else b), |LengthPrefixed(b)|)) else None
  {
    FixedLengthData(f, b, rest);
  }

  lemma FixedLengthData(f: Field, b: seq<u8>, rest: seq<u8>)
    requires f.dataSize <= PB_SIZE_MAX && |b| < TWO32
    ensures DecFixedBytes(f, LengthPrefixed(b) + rest)
         == if |b| == f.dataSize || |b| == 0
            then Some((VBytes(if |b| == 0 then seq(f.dataSize, _ => 0) else b), |LengthPrefixed(b)|)) else None
  {
    var c := VarintBytes(|b|);
    PrefixedIs(b);
    Varint32RoundTrip(|b|, b + rest);
    assert LengthPrefixed(b) + rest == c + (b + rest);
    FixedLengthAt(f, c, b, rest);
  }

  lemma FixedLengthAt(f: Field, c: seq<u8>, b: seq<u8>, rest: seq<u8>)
    requires f.dataSize <= PB_SIZE_MAX && ReadVarint32(c + (b + rest)) == Some((|b|, |c|))
    ensures DecFixedBytes(f, c + (b + rest))
         == if |b| == f.dataSize || |b| == 0
            then Some((VBytes(if |b| == 0 then seq(f.dataSize, _ => 0) else b), |c| + |b|)) else None
  {
    ReadBlockOf(c + (b + rest), c, b, rest);
  }

  // ---- What the encoder refuses -----------------------------------------------------------------------------

  /** Bytes within their buffer, a string with room for its terminator, a submessage that can be encoded. */
  predicate Fitting(f: Field, v: Value)
    decreases f, 0
  {
    match v
    case VInt(_) => true
    case VBytes(b) => (f.ltype.LBytes? ==> |b| + 2 <= f.dataSize) && (f.ltype.LString? ==> |b| < f.dataSize)
    case VMsg(slots) => f.ltype.LSubmsg? ==> Encodable(f.ltype.sub, slots)
  }

  predicate FittingItems(f: Field, items: seq<Value>)
    decreases f, 1
  {
    forall j :: 0 <= j < |items| ==> Fitting(f, items[j])
  }

  /** What there is in the slot fits, and is no more than the array has room for. */
  predicate FittingSlot(f: Field, s: Slot)
    decreases f, 2
  {
    match s
    case Single(v) => Fitting(f, v)
    case Opt(has, v) => has ==> Fitting(f, v)
    case Member(chosen, v) => chosen ==> Fitting(f, v)
    case Rep(items) => |items| <= f.arraySize && FittingItems(f, items)
    case Fixed(items) => FittingItems(f, items)
  }

  predicate Encodable(d: MsgDesc, m: seq<Slot>)
    decreases d, 3
  {
    |m| == |d.fields| && forall i :: 0 <= i < |m| ==> FittingSlot(d.fields[i], m[i])
  }

  lemma {:induction false} ValueRefused(f: Field, v: Value)
    requires GoodField(f) && TypedValue(f, v)
    ensures EncValue(f, v).Some? <==> Fitting(f, v)
    decreases f, 0
  {
    if f.ltype.LSubmsg? { RefusedExactly(f.ltype.sub, v.slots, |v.slots|); }
  }

  lemma {:induction false} ItemsRefused(f: Field, items: seq<Value>, k: nat)
    requires GoodField(f) && TypedItems(f, items) && k <= |items|
    ensures EncItems(f, items, k).Some? <==> forall j :: 0 <= j < k ==> Fitting(f, items[j])
    decreases f, 1, k
  {
    if k > 0 {
      assert TypedValue(f, items[k - 1]);
      ItemsRefused(f, items, k - 1);
      ValueRefused(f, items[k - 1]);
    }
  }

  lemma {:induction false} NumbersAccepted(f: Field, items: seq<Value>, k: nat)
    requires GoodField(f) && f.ltype.Packable() && TypedItems(f, items) && k <= |items|
    ensures Payload(f, items, k).Some? && FittingItems(f, items)
    decreases k
  {
    forall j | 0 <= j < |items| ensures Fitting(f, items[j]) { assert TypedValue(f, items[j]); }
    if k > 0 {
      assert TypedValue(f, items[k - 1]);
      NumbersAccepted(f, items, k - 1);
      ScalarRoundTrip(f, items[k - 1].n, VInt(0), []);
    }
  }

  lemma {:induction false} ArrayRefused(f: Field, items: seq<Value>)
    requires GoodField(f) && TypedItems(f, items)
    ensures EncArray(f, items).Some? <==> |items| <= f.arraySize && FittingItems(f, items)
    decreases f, 2
  {
    if f.ltype.Packable() { NumbersAccepted(f, items, |items|); } else { ItemsRefused(f, items, |items|); }
  }

  lemma {:induction false} BlankFits(d: MsgDesc, f: Field, s: Slot)
    requires GoodField(f) && TypedSlot(f, s) && f.htype.Singular? && !d.hasDefaults
    ensures IsDefault(d, f, s) ==> Fitting(f, s.v)
    decreases f, 3, 0
  {
    assert TypedValue(f, s.v);
    BlankIff(d, f, s);
    if f.ltype.LSubmsg? { RefusedExactly(f.ltype.sub, s.v.slots, |s.v.slots|); }
  }

  lemma {:induction false} SlotRefused(d: MsgDesc, f: Field, s: Slot)
    requires GoodField(f) && TypedSlot(f, s)
    ensures EncSlot(d, f, s).Some? <==> FittingSlot(f, s)
    decreases f, 3, 1
  {
    if s.Rep? || s.Fixed? {
      assert TypedItems(f, s.items) && EncSlot(d, f, s) == EncArray(f, s.items);
      ArrayRefused(f, s.items);
    } else {
      assert TypedValue(f, s.v);
      ValueRefused(f, s.v);
      if f.htype.Singular? && !d.hasDefaults { BlankFits(d, f, s); }
    }
  }

  /** A message is encoded exactly when all that is in it fits, at every depth. */
  lemma {:induction false} RefusedExactly(d: MsgDesc, m: seq<Slot>, k: nat)
    requires GoodDesc(d) && Typed(d, m) && k <= |m|
    ensures EncUpTo(d, m, k).Some? <==> forall i :: 0 <= i < k ==> FittingSlot(d.fields[i], m[i])
    decreases d, 4, k
  {
    if k > 0 {
      assert GoodField(d.fields[k - 1]) && TypedSlot(d.fields[k - 1], m[k - 1]);
      RefusedExactly(d, m, k - 1);
      SlotRefused(d, d.fields[k - 1], m[k - 1]);
    }
  }

  // ---- Records ----------------------------------------------------------------------------------------------

  /** A known field under a wire type that is not its own, or that of a packed array, makes decoding fail. */
  lemma WrongWireType(d: MsgDesc, st: DState, i: nat, wt: nat, rest: seq<u8>)
    requires GoodDesc(d) && SortedDesc(d) && i < |d.fields| && wt < 8 && |st.msg| == |d.fields|
    requires wt != WireType(d.fields[i].ltype)
    requires !(IsArray(d.fields[i]) && d.fields[i].ltype.Packable() && wt == WT_STRING)
    ensures DecLoop(d, TagBytes(Tag(d.fields[i].tag, wt)) + rest, st) == None
  {
    assert DecField(d, st, i, wt, rest) == None;
    RecordRefused(d, st, i, wt, rest);
  }

  /** Field number 0 does not exist. */
  lemma ZeroTag(d: MsgDesc, st: DState, wt: nat, rest: seq<u8>)
    requires wt < 8 && |st.msg| == |d.fields|
    ensures DecLoop(d, TagBytes(Tag(0, wt)) + rest, st) == None
  {
    var tag := Tag(0, wt);
    TagRoundTrip(tag, rest);
    StepBy(d, TagBytes(tag) + rest, st, tag, |TagBytes(tag)|, (TagBytes(tag) + rest)[|TagBytes(tag)|..]);
  }

  /** A field that the descriptor does not have is skipped only under the four wire types; groups and the two numbers
      that stand for nothing make decoding fail. */
  lemma UnknownRefused(d: MsgDesc, st: DState, tag: Tag, rest: seq<u8>)
    requires tag.number < 0x2000_0000 && tag.wireType in {3, 4, 6, 7} && |st.msg| == |d.fields|
    requires forall j :: 0 <= j < |d.fields| ==> d.fields[j].tag != tag.number
    ensures DecLoop(d, TagBytes(tag) + rest, st) == None
  {
    TagRoundTrip(tag, rest);
    assert (TagBytes(tag) + rest)[|TagBytes(tag)|..] == rest;
    StepBy(d, TagBytes(tag) + rest, st, tag, |TagBytes(tag)|, rest);
  }

  /** A record cut short anywhere, known or not, makes decoding fail. */
  lemma {:induction false} CutOffFails(d: MsgDesc, st: DState, u: seq<u8>, k: nat)
    requires |st.msg| == |d.fields| && IsField(u) && 0 < k < |u|
    ensures DecLoop(d, u[..k], st) == None
  {
    if Step(d, u[..k], st).Some? {
      StepExtends(d, u[..k], st, u[k..]);
      assert u[..k] + u[k..] == u && u + [] == u;
      StepWithin(d, st, u, []);
      assert false;
    }
  }

  /** The state after a record of a field that is not an array: the field has the value, no other member of its union is
      chosen, and all other fields are as they were. So the last of several records of a field counts. */
  ghost predicate Sets(d: MsgDesc, st: DState, i: nat, v: Value, st': DState)
    requires i < |d.fields|
  {
    && |st.msg| == |st'.msg| == |d.fields| && st'.fc == st.fc && st'.fcSize == st.fcSize
    && st'.msg[i] == (match d.fields[i].htype
                      case Optional => Opt(true, v) case Oneof(_) => Member(true, v) case _ => Single(v))
    && (forall j :: 0 <= j < |d.fields| && j != i ==>
          st'.msg[j] == if d.fields[i].htype.Oneof? && d.fields[j].htype == d.fields[i].htype
                        then Member(false, DataOf(st.msg[j])) else st.msg[j])
    && st'.seen == st.seen
                   + if d.fields[i].htype.Required? && RequiredBefore(d, i) < 64 then {RequiredBefore(d, i)} else {}
  }

  lemma SetsIt(d: MsgDesc, st: DState, i: nat, v: Value, wt: nat, s: seq<u8>, n: nat) returns (st': DState)
    requires |st.msg| == |d.fields| && i < |d.fields| && !IsArray(d.fields[i]) && wt == WireType(d.fields[i].ltype)
    requires DecValue(d.fields[i], s, FieldStart(d.fields[i], st.msg[i])) == Some((v, n))
    ensures Sets(d, st, i, v, st') && DecField(d, st, i, wt, s) == Some((st', n))
  {
    var st1 := Enter(d, st, i).value;
    st' := st1.(msg := PutSingle(d, st1.msg, i, v));
    assert DecSingle(d, st1, i, wt, s) == Some((st', n));
  }

  lemma {:induction false} SingleTaken(d: MsgDesc, st: DState, i: nat, v: Value, rest: seq<u8>) returns (st': DState)
    requires GoodDesc(d) && SortedDesc(d) && |st.msg| == |d.fields| && i < |d.fields| && !IsArray(d.fields[i])
    requires !d.fields[i].ltype.LSubmsg? && TypedValue(d.fields[i], v)
    requires EncTagged(d.fields[i], v).Some? && |EncTagged(d.fields[i], v).value| < TWO32
    ensures Sets(d, st, i, v, st') && DecLoop(d, EncTagged(d.fields[i], v).value + rest, st) == DecLoop(d, rest, st')
  {
    var f := d.fields[i];
    assert GoodField(f);
    var b := EncValue(f, v).value;
    assert SortedField(f, true);
    ValueRoundTrip(f, v, FieldStart(f, st.msg[i]), rest);
    assert MergeValue(f, v, FieldStart(f, st.msg[i])) == v;
    st' := SetsIt(d, st, i, v, WireType(f.ltype), b + rest, |b|);
    RecordRoundTrip(d, st, i, WireType(f.ltype), b, rest, st');
  }

  /** A record of a submessage is decoded over what the structure holds, or over defaults when it newly becomes the
      chosen member of its union. */
  lemma {:induction false} SubmessageTaken(d: MsgDesc, st: DState, i: nat, b: seq<u8>, rest: seq<u8>)
    returns (st': DState)
    requires GoodDesc(d) && SortedDesc(d) && |st.msg| == |d.fields| && i < |d.fields| && !IsArray(d.fields[i])
    requires d.fields[i].ltype.LSubmsg? && |b| < TWO32
    ensures var f := d.fields[i];
            var over := if f.htype.Oneof? && !IsSet(st.msg[i]) then InitValue(f, ZeroValue(f)) else DataOf(st.msg[i]);
            var r := DecMsg(f.ltype.sub, b, SlotsOf(f.ltype.sub, over));
            && (r.Some? ==> Sets(d, st, i, VMsg(r.value), st'))
            && DecLoop(d, TagBytes(Tag(f.tag, WT_STRING)) + LengthPrefixed(b) + rest, st)
                 == if r.Some? then DecLoop(d, rest, st') else None
  {
    var f := d.fields[i];
    BlockRoundTrip(b, rest);
    var p := LengthPrefixed(b);
    st' := st;
    var over := if f.htype.Oneof? && !IsSet(st.msg[i]) then InitValue(f, ZeroValue(f)) else DataOf(st.msg[i]);
    assert over == FieldStart(f, st.msg[i]);
    var r := DecMsg(f.ltype.sub, b, SlotsOf(f.ltype.sub, over));
    if r.Some? {
      st' := SetsIt(d, st, i, VMsg(r.value), WT_STRING, p + rest, |p|);
      RecordRoundTrip(d, st, i, WT_STRING, p, rest, st');
    } else {
      assert DecValue(f, p + rest, over) == None;
      assert DecSingle(d, Enter(d, st, i).value, i, WT_STRING, p + rest) == None;
      RecordRefused(d, st, i, WT_STRING, p + rest);
      JoinThree(TagBytes(Tag(f.tag, WT_STRING)), p, rest);
    }
  }

  lemma {:induction false} RecordRefused(d: MsgDesc, st: DState, i: nat, wt: nat, p: seq<u8>)
    requires GoodDesc(d) && SortedDesc(d) && i < |d.fields| && wt < 8 && |st.msg| == |d.fields|
    requires DecField(d, st, i, wt, p) == None
    ensures DecLoop(d, TagBytes(Tag(d.fields[i].tag, wt)) + p, st) == None
  {
    assert GoodField(d.fields[i]);
    var tag := Tag(d.fields[i].tag, wt);
    var tb := TagBytes(tag);
    TagRoundTrip(tag, p);
    FindUnique(d, i, 0);
    assert (tb + p)[|tb|..] == p;
    StepBy(d, tb + p, st, tag, |tb|, p);
  }

  /** Without required fields and fixed arrays, decoding one input after another into the same structure is decoding
      them joined. */
  lemma {:induction false} MergesInTurn(d: MsgDesc, a: seq<u8>, b: seq<u8>, m: seq<Slot>)
    requires |m| == |d.fields|
    requires forall i :: 0 <= i < |d.fields| ==> !d.fields[i].htype.Required? && !d.fields[i].htype.FixArray?
    requires DecMsg(d, a, m).Some?
    ensures DecMsg(d, a + b, m) == DecMsg(d, b, DecMsg(d, a, m).value)
  {
    LoopSplits(d, a, b, Start(m));
    NoBookkeeping(d, a, Start(m));
  }

  lemma FieldPlain(d: MsgDesc, st: DState, i: nat, wt: nat, s: seq<u8>)
    requires |st.msg| == |d.fields| && i < |d.fields| && DecField(d, st, i, wt, s).Some?
    requires !d.fields[i].htype.Required? && !d.fields[i].htype.FixArray?
    ensures var st' := DecField(d, st, i, wt, s).value.0;
            st'.fc == st.fc && st'.fcSize == st.fcSize && st'.seen == st.seen
  {}

  lemma {:induction false} NoBookkeeping(d: MsgDesc, s: seq<u8>, st: DState)
    requires |st.msg| == |d.fields| && st.fc == None && st.fcSize == 0 && st.seen == {} && DecLoop(d, s, st).Some?
    requires forall i :: 0 <= i < |d.fields| ==> !d.fields[i].htype.Required? && !d.fields[i].htype.FixArray?
    ensures var r := DecLoop(d, s, st).value; r == Start(r.msg)
    decreases |s|
  {
    if s != [] {
      var (st', n) := Step(d, s, st).value;
      var (tag, k) := ReadTag(s).value;
      assert AfterTag(d, st, tag, s[k..]).Some?;
      if FindFrom(d, tag.number, 0).Some? {
        FieldPlain(d, st, FindFrom(d, tag.number, 0).value, tag.wireType, s[k..]);
      }
      NoBookkeeping(d, s[n..], st');
    }
  }
}
