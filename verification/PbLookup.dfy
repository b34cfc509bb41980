/** The search of the descriptor iterator and the search of the decoder's specification are the same. */
module PbLookup {
  import opened Words
  import opened PbModel
  import opened PbDecodeSpec
  import opened PbIterator

  /** How a 32-bit word is read as a number; all that the search needs of it is that it tells words apart. */
  ghost predicate Reading(number: bv32 -> nat) { forall a, b :: number(a) == number(b) ==> a == b }

  /** The list behind the packed words declares the fields of the message, none of them an extension. */
  ghost predicate Declares(l: seq<Entry>, d: MsgDesc, number: bv32 -> nat) {
    && |l| == |d.fields|
    && forall i {:trigger l[i]} :: 0 <= i < |l| ==> number(l[i].f.tag) == d.fields[i].tag && !l[i].role.extension
  }

  /** A field matches exactly when the specification finds it. */
  lemma MatchesIsFound(l: seq<Entry>, d: MsgDesc, number: bv32 -> nat, t: bv32, j: nat)
    requires Reading(number) && Declares(l, d, number) && SortedDesc(d)
    ensures Matches(l, j, t) <==> FindFrom(d, number(t), 0) == Some(j)
  {
    var found := FindFrom(d, number(t), 0);
    assert found.Some? ==> number(l[found.value].f.tag) == number(t);
  }

  /** pb_field_iter_find as pb_decode_inner uses it: from whatever field the iterator is on, it finds the field that the
      decoder's specification looks for, and fails when there is none. */
  method FindField(iter: FieldIter, ghost d: MsgDesc, ghost number: bv32 -> nat, t: bv32) returns (found: Option<nat>)
    requires iter.Valid() && iter.At(iter.index) && iter.Loaded(iter.index) && iter.fields != []
    requires iter.index < |iter.fields| && Reading(number) && Declares(iter.fields, d, number) && SortedDesc(d)
    modifies iter
    ensures iter.Valid() && iter.At(iter.index) && iter.Loaded(iter.index)
    ensures found == FindFrom(d, number(t), 0)
    ensures found.Some? ==> iter.index == found.value
  {
    ghost var l, start := iter.fields, iter.index;
    MatchesIsFound(l, d, number, t, start);
    var ok := iter.Find(t);
    found := if ok then Some(iter.index) else None;
    MatchesIsFound(l, d, number, t, iter.index);
    if !ok {
      ghost var spec := FindFrom(d, number(t), 0);
      if spec.Some? { MatchesIsFound(l, d, number, t, spec.value); }
    }
  }
}
