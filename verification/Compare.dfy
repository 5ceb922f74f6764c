/** Equality of arrays whatever their offsets and buffers (arrow/array/compare.go). */
module Compare {
  import opened Bits
  import opened BitUtil
  import opened Int32View
  import opened Wrappers
  import opened ArrayData
  import opened Arrays

  ghost predicate Comparable(d: Data) {
    WellFormed(d) && Constructible(d)
  }

  ghost predicate SameValues(l: Data, r: Data)
    requires WellFormed(l) && WellFormed(r)
  {
    l.dtype == r.dtype && Meaning(l) == Meaning(r)
  }

  ghost predicate SlotsEqual(l: Data, r: Data, n: nat)
    requires WellFormed(l) && WellFormed(r) && n <= l.length && n <= r.length
  {
    forall i :: 0 <= i < n ==> Slot(l, i) == Slot(r, i)
  }

  /** What baseArrayEqual decides: same type, and nulls in the same places. */
  ghost predicate SameShape(l: Data, r: Data)
    requires WellFormed(l) && WellFormed(r)
  {
    l.dtype == r.dtype && ValidBits(l) == ValidBits(r)
  }

  // ---------------------------------------------------------------- slots

  lemma {:induction false} NullSlot(d: Data, i: nat)
    requires WellFormed(d) && i < d.length && !ValidBits(d)[i]
    ensures Slot(d, i) == Null
  {
    hide LayoutOk, ValidBits;
  }

  lemma {:induction false} ValidSlot(d: Data, i: nat)
    requires WellFormed(d) && Constructible(d) && i < d.length && ValidBits(d)[i]
    ensures Slot(d, i) != Null
  {
    hide LayoutOk, BitRange, Int32s, OffsetsOk;
  }

  lemma {:induction false} SlotsAreMeaning(l: Data, r: Data)
    requires WellFormed(l) && WellFormed(r) && l.length == r.length
    ensures SlotsEqual(l, r, l.length) <==> Meaning(l) == Meaning(r)
  {
    hide WellFormed, Slot;
    if Meaning(l) == Meaning(r) {
      forall i | 0 <= i < l.length
        ensures Slot(l, i) == Slot(r, i)
      {
        assert Meaning(l)[i] == Meaning(r)[i];
      }
    }
  }

  lemma {:induction false} SameMeaningSameShape(l: Data, r: Data)
    requires Comparable(l) && Comparable(r) && l.dtype == r.dtype && Meaning(l) == Meaning(r)
    ensures SameShape(l, r)
  {
    hide LayoutOk, NullsOk, Slot, ValidBits, Constructible;
    assert |Meaning(l)| == l.length && |Meaning(r)| == r.length;
    SlotsAreMeaning(l, r);
    forall i | 0 <= i < l.length
      ensures ValidBits(l)[i] == ValidBits(r)[i]
    {
      if ValidBits(l)[i] { ValidSlot(l, i); } else { NullSlot(l, i); }
      if ValidBits(r)[i] { ValidSlot(r, i); } else { NullSlot(r, i); }
    }
  }

  // ---------------------------------------------------------------- the base comparison

  method BaseArrayEqual(l: Array, r: Array) returns (eq: bool)
    requires l.Valid() && r.Valid()
    modifies l`data, r`data
    ensures l.Valid() && l.data == old(l.data).(nulls := NullCount(old(l.data)))
    ensures r.Valid() && r.data == old(r.data).(nulls := NullCount(old(r.data)))
    ensures eq <==> SameShape(old(l.data), old(r.data))
  {
    hide LayoutOk, ValidBits, Constructible;
    RecountedNulls(l.data, NullCount(l.data));
    RecountedNulls(r.data, NullCount(r.data));
    var ln := l.NullN();
    var rn := r.NullN();
    if l.data.length != r.data.length {
      eq := false;
    } else if ln != rn {
      eq := false;
    } else if l.data.dtype != r.data.dtype {
      eq := false;
    } else {
      eq := ValidityBitmapEqual(l, r);
    }
  }

  method ValidityBitmapEqual(l: Array, r: Array) returns (eq: bool)
    requires l.Valid() && r.Valid() && l.data.dtype == r.data.dtype && l.data.length == r.data.length
    ensures eq <==> ValidBits(l.data) == ValidBits(r.data)
  {
    hide LayoutOk, NullsOk;
    for i := 0 to l.data.length
      invariant forall j :: 0 <= j < i ==> ValidBits(l.data)[j] == ValidBits(r.data)[j]
    {
      if l.IsNull(i) != r.IsNull(i) {
        assert ValidBits(l.data)[i] != ValidBits(r.data)[i];
        return false;
      }
    }
    return true;
  }

  // ---------------------------------------------------------------- flat arrays

  lemma {:induction false} IsNullBit(a: Array, i: nat)
    requires a.Valid() && i < a.data.length && !a.data.dtype.NullType?
    ensures a.IsNull(i) <==> !ValidBits(a.data)[i]
  {
    hide LayoutOk, NullsOk;
  }

  lemma {:induction false} BooleanSlot(d: Data, i: nat)
    requires WellFormed(d) && i < d.length && d.dtype.BooleanType? && ValidBits(d)[i]
    ensures Slot(d, i) == Boolean(BooleanValue(d, i))
  {
    hide ValidBits, NullsOk;
  }

  function BooleanValue(d: Data, i: nat): bool
    requires BooleanOk(d) && i < d.length
  {
    BitAt(d.buffers[1].value, d.offset + i)
  }

  lemma {:induction false} FixedWidthSlotValue(d: Data, w: nat, i: nat)
    requires WellFormed(d) && i < d.length && d.dtype == FixedWidthType(w) && ValidBits(d)[i]
    ensures Slot(d, i) == Bytes(FixedWidthSlot(d, w, i))
  {
    hide ValidBits, NullsOk, FixedWidthSlot;
  }

  lemma {:induction false} BinarySlotValue(d: Data, i: nat)
    requires WellFormed(d) && i < d.length && d.dtype.BinaryType? && ValidBits(d)[i]
    ensures Slot(d, i) == Bytes(BinarySlot(d, i))
  {
    hide ValidBits, NullsOk, BinarySlot;
  }

  method EqualBooleans(l: Array, r: Array) returns (eq: bool)
    requires l.Valid() && r.Valid() && SameShape(l.data, r.data) && l.data.dtype.BooleanType?
    ensures eq <==> Meaning(l.data) == Meaning(r.data)
  {
    hide ValidBits, NullsOk, Slot, BooleanValue;
    SlotsAreMeaning(l.data, r.data);
    for i := 0 to l.data.length
      invariant SlotsEqual(l.data, r.data, i)
    {
      IsNullBit(l, i);
      if !l.IsNull(i) {
        BooleanSlot(l.data, i);
        BooleanSlot(r.data, i);
        if BooleanValue(l.data, i) != BooleanValue(r.data, i) {
          return false;
        }
      } else {
        NullSlot(l.data, i);
        NullSlot(r.data, i);
      }
    }
    return true;
  }

  method EqualFixedWidth(l: Array, r: Array, w: nat) returns (eq: bool)
    requires l.Valid() && r.Valid() && SameShape(l.data, r.data) && l.data.dtype == FixedWidthType(w)
    ensures eq <==> Meaning(l.data) == Meaning(r.data)
  {
    hide ValidBits, NullsOk, Slot, FixedWidthSlot;
    SlotsAreMeaning(l.data, r.data);
    for i := 0 to l.data.length
      invariant SlotsEqual(l.data, r.data, i)
    {
      IsNullBit(l, i);
      if !l.IsNull(i) {
        FixedWidthSlotValue(l.data, w, i);
        FixedWidthSlotValue(r.data, w, i);
        if FixedWidthSlot(l.data, w, i) != FixedWidthSlot(r.data, w, i) {
          return false;
        }
      } else {
        NullSlot(l.data, i);
        NullSlot(r.data, i);
      }
    }
    return true;
  }

  method EqualBinaries(l: Array, r: Array) returns (eq: bool)
    requires l.Valid() && r.Valid() && SameShape(l.data, r.data) && l.data.dtype.BinaryType?
    ensures eq <==> Meaning(l.data) == Meaning(r.data)
  {
    hide ValidBits, NullsOk, Slot, BinarySlot, VariableOk;
    SlotsAreMeaning(l.data, r.data);
    for i := 0 to l.data.length
      invariant SlotsEqual(l.data, r.data, i)
    {
      IsNullBit(l, i);
      if !l.IsNull(i) {
        BinarySlotValue(l.data, i);
        BinarySlotValue(r.data, i);
        if BinarySlot(l.data, i) != BinarySlot(r.data, i) {
          return false;
        }
      } else {
        NullSlot(l.data, i);
        NullSlot(r.data, i);
      }
    }
    return true;
  }

  // ---------------------------------------------------------------- nested arrays

  /** newListValue: the child slots of one list slot. */
  function ListValue(d: Data, i: nat): (r: Data)
    requires WellFormed(d) && i < d.length && IsList(d.dtype)
    ensures r.dtype == ElemType(d.dtype)
  {
    var (begin, end) := ChildRange(d, i);
    SliceData(d.childData[0], begin, end)
  }

  /** The list value is comparable, and its meaning is what the list slot holds. */
  lemma {:induction false} ListSlot(d: Data, i: nat)
    requires Comparable(d) && i < d.length && IsList(d.dtype) && ValidBits(d)[i]
    ensures Comparable(ListValue(d, i)) && Slot(d, i) == List(Meaning(ListValue(d, i)))
  {
    hide NullsOk, ValidBits, ChildRange;
    var child := d.childData[0];
    var (begin, end) := ChildRange(d, i);
    assert WellFormed(child) && Constructible(child);
    SliceMeaning(child, begin, end);
    SliceConstructible(child, begin, end);
    SlotsMeaning(child, begin, end);
  }

  /** newListValue, read off the offsets: the child from the slot's offset to the next, or its next n values. */
  lemma {:induction false} ListValueIs(d: Data, i: nat)
    requires WellFormed(d) && i < d.length && IsList(d.dtype)
    ensures |d.childData| == 1 && WellFormed(d.childData[0]) && WellFormed(ListValue(d, i))
    ensures d.dtype.ListType? || d.dtype.MapType? ==>
      && d.buffers[1].Some? && 4 * (d.offset + i + 2) <= |d.buffers[1].value|
      && var begin, end := Int32At(d.buffers[1].value, d.offset + i), Int32At(d.buffers[1].value, d.offset + i + 1);
         && 0 <= begin <= end <= d.childData[0].length
         && Meaning(ListValue(d, i)) == Meaning(d.childData[0])[begin..end]
    ensures d.dtype.FixedSizeListType? ==>
      && var n := d.dtype.n; var begin, end := (d.offset + i) * n, (d.offset + i + 1) * n;
         && 0 <= begin <= end <= d.childData[0].length
         && Meaning(ListValue(d, i)) == Meaning(d.childData[0])[begin..end]
  {
    hide ValidBits, NullsOk, LayoutOk, ChildRange, Int32At, Meaning;
    ListSlotIs(d, i);
    var r := ChildRange(d, i);
    SliceMeaning(d.childData[0], r.0, r.1);
  }

  /** What the fields of a struct need of it. */
  ghost predicate StructOk(d: Data) {
    && d.dtype.StructType? && 0 <= d.offset && 0 <= d.length && |d.childData| == |d.dtype.fields|
    && forall k :: 0 <= k < |d.childData| ==>
         && Comparable(d.childData[k]) && d.childData[k].dtype == d.dtype.fields[k]
         && d.offset + d.length <= d.childData[k].length
  }

  lemma {:induction false} StructIsOk(d: Data)
    requires Comparable(d) && d.dtype.StructType?
    ensures StructOk(d)
  {
    hide NullsOk, ValidBits;
  }

  /** The field arrays of a struct (Struct.setData): children, sliced unless they already fit. */
  function Field(d: Data, k: nat): (r: Data)
    requires StructOk(d) && k < |d.childData|
    ensures r.dtype == d.dtype.fields[k] && r.length == d.length
  {
    var child := d.childData[k];
    if d.offset != 0 || child.length != d.length then SliceData(child, d.offset, d.offset + d.length) else child
  }

  lemma {:induction false} FieldMeaning(d: Data, k: nat)
    requires StructOk(d) && k < |d.childData|
    ensures Comparable(Field(d, k))
    ensures forall i :: 0 <= i < d.length ==> Meaning(Field(d, k))[i] == Slot(d.childData[k], d.offset + i)
  {
    hide WellFormed, Constructible, Slot;
    var child := d.childData[k];
    SliceMeaning(child, d.offset, d.offset + d.length);
    SliceConstructible(child, d.offset, d.offset + d.length);
  }

  /** The values of the fields in one row. */
  ghost function FieldsAt(d: Data, i: nat): (r: seq<Value>)
    requires StructOk(d) && i < d.length
    ensures |r| == |d.childData|
  {
    seq(|d.childData|, k requires 0 <= k < |d.childData| => Slot(d.childData[k], d.offset + i))
  }

  lemma {:induction false} StructSlot(d: Data, i: nat)
    requires WellFormed(d) && StructOk(d) && i < d.length && ValidBits(d)[i]
    ensures Slot(d, i) == Struct(FieldsAt(d, i))
  {
    hide NullsOk, ValidBits;
  }

  /** The first n fields mean the same. */
  ghost predicate FieldsEqual(l: Data, r: Data, n: nat)
    requires StructOk(l) && StructOk(r) && n <= |l.childData| && n <= |r.childData|
  {
    forall k :: 0 <= k < n ==> FieldEqual(l, r, k)
  }

  ghost predicate FieldEqual(l: Data, r: Data, k: nat)
    requires StructOk(l) && StructOk(r) && k < |l.childData| && k < |r.childData|
  {
    FieldMeaning(l, k);
    FieldMeaning(r, k);
    Meaning(Field(l, k)) == Meaning(Field(r, k))
  }

  lemma {:induction false} EqualFieldsAt(l: Data, r: Data, i: nat)
    requires StructOk(l) && StructOk(r) && |l.childData| == |r.childData| && i < l.length == r.length
    requires FieldsEqual(l, r, |l.childData|)
    ensures FieldsAt(l, i) == FieldsAt(r, i)
  {
    hide WellFormed, Constructible, Slot, Field, Meaning, StructOk;
    forall k | 0 <= k < |l.childData|
      ensures FieldsAt(l, i)[k] == FieldsAt(r, i)[k]
    {
      FieldMeaning(l, k);
      FieldMeaning(r, k);
      assert FieldEqual(l, r, k);
      assert Meaning(Field(l, k))[i] == Meaning(Field(r, k))[i];
    }
  }

  lemma {:induction false} EqualFieldsEqualStructs(l: Data, r: Data)
    requires Comparable(l) && Comparable(r) && SameShape(l, r) && StructOk(l) && StructOk(r)
    requires FieldsEqual(l, r, |l.childData|)
    ensures SameValues(l, r)
  {
    hide NullsOk, LayoutOk, ValidBits, Slot, FieldsEqual, FieldsAt;
    forall i | 0 <= i < l.length
      ensures Slot(l, i) == Slot(r, i)
    {
      if ValidBits(l)[i] {
        EqualFieldsAt(l, r, i);
        StructSlot(l, i);
        StructSlot(r, i);
      } else {
        NullSlot(l, i);
        NullSlot(r, i);
      }
    }
    SlotsAreMeaning(l, r);
  }

  lemma {:induction false} SameSlot(l: Data, r: Data, i: nat)
    requires WellFormed(l) && WellFormed(r) && Meaning(l) == Meaning(r) && i < l.length
    ensures i < r.length && Slot(l, i) == Slot(r, i)
  {
    hide WellFormed, Slot;
    assert |Meaning(l)| == l.length && |Meaning(r)| == r.length;
    assert Meaning(l)[i] == Meaning(r)[i];
  }

  lemma {:induction false} FieldOfRow(d: Data, k: nat, i: nat)
    requires StructOk(d) && k < |d.childData| && i < d.length
    ensures FieldsAt(d, i)[k] == Slot(d.childData[k], d.offset + i)
  {
    hide WellFormed, Slot;
  }

  // ---------------------------------------------------------------- hidden values

  /**
   What equality asks for beyond equal values. A struct that is not all null must
   agree in every field, in the rows of its null slots too; a list that is not all
   null must agree in this sense in each valid slot.
   */
  ghost predicate HiddenAgree(l: Data, r: Data)
    decreases l.dtype, 1
  {
    && Comparable(l) && Comparable(r) && l.dtype == r.dtype && l.length == r.length
    && (NullCount(l) < l.length ==>
          && (l.dtype.StructType? ==> FieldsAgree(l, r, |l.childData|))
          && (IsList(l.dtype) ==> ElemsAgree(l, r, l.length)))
  }

  /** The first n fields are equal, hidden values included. */
  ghost predicate FieldsAgree(l: Data, r: Data, n: nat)
    decreases l.dtype, 0
  {
    && StructOk(l) && StructOk(r) && n <= |l.childData| && n <= |r.childData|
    && forall k :: 0 <= k < n ==> FieldEqual(l, r, k) && HiddenAgree(Field(l, k), Field(r, k))
  }

  /** In the first n slots, valid lists agree in what they hide. */
  ghost predicate ElemsAgree(l: Data, r: Data, n: nat)
    requires Comparable(l) && Comparable(r) && IsList(l.dtype) && IsList(r.dtype) && n <= l.length && n <= r.length
    decreases l.dtype, 0
  {
    forall i :: 0 <= i < n && ValidBits(l)[i] && ValidBits(r)[i] ==> HiddenAgree(ListValue(l, i), ListValue(r, i))
  }

  /** What ArrayEqual decides. */
  ghost predicate SameData(l: Data, r: Data)
    requires Comparable(l) && Comparable(r)
  {
    SameValues(l, r) && HiddenAgree(l, r)
  }

  /** Equal lists have equal elements in every valid slot. */
  lemma {:induction false} SameLists(l: Data, r: Data, i: nat)
    requires Comparable(l) && Comparable(r) && SameData(l, r) && NullCount(l) < l.length && IsList(l.dtype)
    requires i < l.length && i < r.length && ValidBits(l)[i] && ValidBits(r)[i]
    ensures Comparable(ListValue(l, i)) && Comparable(ListValue(r, i)) && SameData(ListValue(l, i), ListValue(r, i))
  {
    hide NullsOk, LayoutOk, ValidBits, Slot, ListValue, NullCount, Meaning;
    ListSlot(l, i);
    ListSlot(r, i);
    SameSlot(l, r, i);
    assert ElemsAgree(l, r, l.length);
    assert HiddenAgree(ListValue(l, i), ListValue(r, i));
  }

  /** Equal structs that are not all null have equal fields. */
  lemma {:induction false} SameFields(l: Data, r: Data, k: nat)
    requires Comparable(l) && Comparable(r) && SameData(l, r) && NullCount(l) < l.length && StructOk(l) && StructOk(r)
    requires k < |l.childData|
    ensures k < |r.childData| && Comparable(Field(l, k)) && Comparable(Field(r, k))
    ensures SameData(Field(l, k), Field(r, k))
  {
    hide NullsOk, LayoutOk, ValidBits, Slot, Field, NullCount, Meaning;
    FieldMeaning(l, k);
    FieldMeaning(r, k);
    assert FieldsAgree(l, r, |l.childData|);
    assert FieldEqual(l, r, k) && HiddenAgree(Field(l, k), Field(r, k));
  }

  method EqualLists(l: Array, r: Array) returns (eq: bool)
    requires l.Valid() && r.Valid() && SameShape(l.data, r.data) && IsList(l.data.dtype)
    requires NullCount(l.data) < l.data.length
    ensures eq <==> SameData(l.data, r.data)
    decreases l.data.dtype, 0
  {
    hide ValidBits, NullsOk, LayoutOk, Slot, ListValue, NullCount;
    SlotsAreMeaning(l.data, r.data);
    for i := 0 to l.data.length
      invariant l.Valid() && r.Valid()
      invariant SlotsEqual(l.data, r.data, i) && ElemsAgree(l.data, r.data, i)
    {
      IsNullBit(l, i);
      if !l.IsNull(i) {
        ListSlot(l.data, i);
        ListSlot(r.data, i);
        var same := ArrayEqual(ListValue(l.data, i), ListValue(r.data, i));
        if !same {
          if SameData(l.data, r.data) {
            SameLists(l.data, r.data, i);
          }
          return false;
        }
      } else {
        NullSlot(l.data, i);
        NullSlot(r.data, i);
      }
    }
    return true;
  }

  method EqualStructs(l: Array, r: Array) returns (eq: bool)
    requires l.Valid() && r.Valid() && SameShape(l.data, r.data) && l.data.dtype.StructType?
    requires NullCount(l.data) < l.data.length
    ensures eq <==> SameData(l.data, r.data)
    decreases l.data.dtype, 0
  {
    hide ValidBits, NullsOk, LayoutOk, Slot, Field, NullCount;
    StructIsOk(l.data);
    StructIsOk(r.data);
    for k := 0 to |l.data.childData|
      invariant l.Valid() && r.Valid()
      invariant FieldsAgree(l.data, r.data, k)
    {
      FieldMeaning(l.data, k);
      FieldMeaning(r.data, k);
      var same := ArrayEqual(Field(l.data, k), Field(r.data, k));
      if !same {
        if SameData(l.data, r.data) {
          SameFields(l.data, r.data, k);
        }
        return false;
      }
    }
    AgreeingFieldsEqual(l.data, r.data);
    EqualFieldsEqualStructs(l.data, r.data);
    return true;
  }

  lemma {:induction false} AgreeingFieldsEqual(l: Data, r: Data)
    requires StructOk(l) && StructOk(r) && |l.childData| == |r.childData| && FieldsAgree(l, r, |l.childData|)
    ensures FieldsEqual(l, r, |l.childData|)
  {
    hide StructOk, FieldEqual, HiddenAgree;
  }

  // ---------------------------------------------------------------- when nothing hidden can differ

  /** Data compared with itself agrees in what it hides. */
  lemma {:induction false} SelfAgree(d: Data)
    requires Comparable(d)
    ensures HiddenAgree(d, d)
    decreases d.dtype
  {
    hide NullsOk, LayoutOk, ValidBits, NullCount, Slot, Meaning, Field, ListValue;
    if d.dtype.StructType? {
      StructIsOk(d);
      forall k | 0 <= k < |d.childData|
        ensures FieldEqual(d, d, k) && HiddenAgree(Field(d, k), Field(d, k))
      {
        FieldMeaning(d, k);
        SelfAgree(Field(d, k));
      }
    }
    if IsList(d.dtype) {
      forall i | 0 <= i < d.length && ValidBits(d)[i]
        ensures HiddenAgree(ListValue(d, i), ListValue(d, i))
      {
        ListSlot(d, i);
        SelfAgree(ListValue(d, i));
      }
    }
  }

  /** No struct, at any depth, has a null slot. */
  ghost predicate Dense(d: Data)
    requires WellFormed(d)
    decreases d
  {
    && (d.dtype.StructType? ==> NullCount(d) == 0)
    && forall k :: 0 <= k < |d.childData| ==> Dense(d.childData[k])
  }

  lemma {:induction false} SliceDense(d: Data, i: nat, j: nat)
    requires WellFormed(d) && i <= j <= d.length && Dense(d)
    ensures WellFormed(SliceData(d, i, j)) && Dense(SliceData(d, i, j))
  {
    hide LayoutOk, NullsOk, ValidBits;
    SliceWellFormed(d, i, j);
    if d.dtype.StructType? {
      SliceValidBits(d, i, j);
      CountAll(ValidBits(d));
      CountAll(ValidBits(SliceData(d, i, j)));
    }
  }

  /** Structs without null slots that mean the same have fields that mean the same. */
  lemma {:induction false} DenseFieldsEqual(l: Data, r: Data, k: nat)
    requires Comparable(l) && Comparable(r) && SameValues(l, r) && StructOk(l) && StructOk(r)
    requires k < |l.childData| && NullCount(l) == 0 && NullCount(r) == 0
    ensures FieldEqual(l, r, k)
  {
    hide NullsOk, LayoutOk, ValidBits, Slot, Field, FieldsAt, Meaning;
    assert |Meaning(l)| == l.length && |Meaning(r)| == r.length;
    FieldMeaning(l, k);
    FieldMeaning(r, k);
    CountAll(ValidBits(l));
    CountAll(ValidBits(r));
    forall i | 0 <= i < l.length
      ensures Meaning(Field(l, k))[i] == Meaning(Field(r, k))[i]
    {
      StructSlot(l, i);
      StructSlot(r, i);
      SameSlot(l, r, i);
      FieldOfRow(l, k, i);
      FieldOfRow(r, k, i);
    }
  }

  lemma {:induction false} DenseList(d: Data, i: nat)
    requires Comparable(d) && Dense(d) && i < d.length && IsList(d.dtype) && ValidBits(d)[i]
    ensures Comparable(ListValue(d, i)) && Dense(ListValue(d, i))
  {
    hide NullsOk, ValidBits, ChildRange;
    ListSlot(d, i);
    assert WellFormed(d.childData[0]) && Dense(d.childData[0]);
    SliceDense(d.childData[0], ChildRange(d, i).0, ChildRange(d, i).1);
  }

  lemma {:induction false} DenseField(d: Data, k: nat)
    requires Comparable(d) && Dense(d) && StructOk(d) && k < |d.childData|
    ensures Comparable(Field(d, k)) && Dense(Field(d, k))
  {
    hide NullsOk, LayoutOk, ValidBits, NullCount;
    FieldMeaning(d, k);
    SliceDense(d.childData[k], d.offset, d.offset + d.length);
  }

  /** Without null struct slots on either side, equal values are enough: ArrayEqual is equality of values. */
  lemma {:induction false} DenseAgree(l: Data, r: Data)
    requires Comparable(l) && Comparable(r) && SameValues(l, r) && Dense(l) && Dense(r)
    ensures HiddenAgree(l, r)
    decreases l.dtype, 1
  {
    hide NullsOk, LayoutOk, ValidBits, NullCount, Slot, Meaning, Field, ListValue;
    assert |Meaning(l)| == l.length && |Meaning(r)| == r.length;
    if l.dtype.StructType? {
      StructIsOk(l);
      StructIsOk(r);
      forall k | 0 <= k < |l.childData|
        ensures FieldEqual(l, r, k) && HiddenAgree(Field(l, k), Field(r, k))
      {
        DenseFieldsEqual(l, r, k);
        DenseField(l, k);
        DenseField(r, k);
        DenseAgree(Field(l, k), Field(r, k));
      }
    }
    if IsList(l.dtype) {
      DenseElems(l, r);
    }
  }

  lemma {:induction false} DenseElems(l: Data, r: Data)
    requires Comparable(l) && Comparable(r) && SameValues(l, r) && Dense(l) && Dense(r) && IsList(l.dtype)
    ensures |Meaning(l)| == l.length == r.length && ElemsAgree(l, r, l.length)
    decreases l.dtype, 0
  {
    hide NullsOk, LayoutOk, ValidBits, NullCount, Slot, Meaning, ListValue, HiddenAgree, Dense;
    assert |Meaning(l)| == l.length && |Meaning(r)| == r.length;
    forall i | 0 <= i < l.length && ValidBits(l)[i] && ValidBits(r)[i]
      ensures HiddenAgree(ListValue(l, i), ListValue(r, i))
    {
      ListSlot(l, i);
      ListSlot(r, i);
      SameSlot(l, r, i);
      DenseList(l, i);
      DenseList(r, i);
      DenseAgree(ListValue(l, i), ListValue(r, i));
    }
  }

  // ---------------------------------------------------------------- ArrayEqual

  /** Counting the nulls first changes nothing that is compared. */
  lemma {:induction false} CountedSame(l: Data, r: Data)
    requires Comparable(l) && Comparable(r)
    ensures Comparable(l.(nulls := NullCount(l))) && Comparable(r.(nulls := NullCount(r)))
    ensures ValidBits(l.(nulls := NullCount(l))) == ValidBits(l) && ValidBits(r.(nulls := NullCount(r))) == ValidBits(r)
    ensures SameData(l, r) <==> SameData(l.(nulls := NullCount(l)), r.(nulls := NullCount(r)))
  {
    hide ValidBits, LayoutOk, Slot, HiddenAgree;
    RecountedNulls(l, NullCount(l));
    RecountedNulls(r, NullCount(r));
    var l', r' := l.(nulls := NullCount(l)), r.(nulls := NullCount(r));
    if HiddenAgree(l, r) {
      CountedAgree(l, r, l', r');
    }
    if HiddenAgree(l', r') {
      CountedAgree(l', r', l, r);
    }
  }

  /** Data that differ in their recorded null counts only. */
  ghost predicate Recount(d: Data, d': Data) {
    Comparable(d) && Comparable(d') && d' == d.(nulls := d'.nulls) && ValidBits(d') == ValidBits(d)
  }

  lemma {:induction false} CountedFields(l: Data, r: Data, l': Data, r': Data, n: nat)
    requires Recount(l, l') && Recount(r, r') && FieldsAgree(l, r, n)
    ensures FieldsAgree(l', r', n)
  {
    hide Comparable, ValidBits, Meaning;
    forall k | 0 <= k < n
      ensures FieldEqual(l', r', k) && HiddenAgree(Field(l', k), Field(r', k))
    {
      assert FieldEqual(l, r, k) && HiddenAgree(Field(l, k), Field(r, k));
      assert Field(l', k) == Field(l, k) && Field(r', k) == Field(r, k);
    }
  }

  lemma {:induction false} CountedElems(l: Data, r: Data, l': Data, r': Data, n: nat)
    requires Recount(l, l') && Recount(r, r') && IsList(l.dtype) && IsList(r.dtype) && n <= l.length && n <= r.length
    requires ElemsAgree(l, r, n)
    ensures ElemsAgree(l', r', n)
  {
    hide ValidBits, NullsOk, Constructible, HiddenAgree;
    forall i | 0 <= i < n && ValidBits(l')[i] && ValidBits(r')[i]
      ensures HiddenAgree(ListValue(l', i), ListValue(r', i))
    {
      CountedList(l, l', i);
      CountedList(r, r', i);
    }
  }

  lemma {:induction false} CountedList(d: Data, d': Data, i: nat)
    requires Recount(d, d') && IsList(d.dtype) && i < d.length
    ensures ListValue(d', i) == ListValue(d, i)
  {
    hide ValidBits, NullsOk, Constructible, Int32s;
  }

  lemma {:induction false} CountedAgree(l: Data, r: Data, l': Data, r': Data)
    requires Recount(l, l') && Recount(r, r') && HiddenAgree(l, r)
    ensures HiddenAgree(l', r')
  {
    hide LayoutOk, NullsOk, Constructible, ValidBits, FieldsAgree, ElemsAgree;
    assert NullCount(l') == NullCount(l);
    if NullCount(l) < l.length {
      if l.dtype.StructType? {
        CountedFields(l, r, l', r', |l.childData|);
      }
      if IsList(l.dtype) {
        CountedElems(l, r, l', r', l.length);
      }
    }
  }

  lemma {:induction false} AllNullEqual(l: Data, r: Data)
    requires Comparable(l) && Comparable(r) && SameShape(l, r) && NullCount(l) == l.length
    ensures SameData(l, r)
  {
    hide LayoutOk, NullsOk, ValidBits, Slot;
    CountNone(ValidBits(l));
    forall i | 0 <= i < l.length
      ensures Slot(l, i) == Slot(r, i)
    {
      NullSlot(l, i);
      NullSlot(r, i);
    }
    SlotsAreMeaning(l, r);
  }

  /**
   Equality of type, of values and of the values that null struct slots hide, at
   every depth; arrays of only nulls hide nothing.
   */
  method ArrayEqual(left: Data, right: Data) returns (eq: bool)
    requires Comparable(left) && Comparable(right)
    ensures eq <==> SameData(left, right)
    decreases left.dtype, 1
  {
    hide ValidBits, NullsOk, LayoutOk, Slot, Count, Meaning, HiddenAgree;
    CountedSame(left, right);
    var l := new Array(left);
    var r := new Array(right);
    var base := BaseArrayEqual(l, r);
    if !base {
      if SameValues(left, right) {
        SameMeaningSameShape(left, right);
      }
      return false;
    }
    if l.data.length == 0 {
      AllNullEqual(left, right);
      return true;
    }
    var nulls := l.NullN();
    if nulls == l.data.length {
      AllNullEqual(left, right);
      return true;
    }
    match left.dtype {
      case NullType =>
        AllNullEqual(left, right);
        eq := true;
      case BooleanType =>
        FlatAgree(l.data, r.data);
        eq := EqualBooleans(l, r);
      case FixedWidthType(w) =>
        FlatAgree(l.data, r.data);
        eq := EqualFixedWidth(l, r, w);
      case BinaryType =>
        FlatAgree(l.data, r.data);
        eq := EqualBinaries(l, r);
      case StructType(_) => eq := EqualStructs(l, r);
      case ListType(_) => eq := EqualLists(l, r);
      case MapType(_) => eq := EqualLists(l, r);
      case FixedSizeListType(_, _) => eq := EqualLists(l, r);
      case OtherType(_) => assert false;
    }
  }

  lemma {:induction false} FlatAgree(l: Data, r: Data)
    requires Comparable(l) && Comparable(r) && SameShape(l, r) && !l.dtype.StructType? && !IsList(l.dtype)
    ensures HiddenAgree(l, r)
  {
    hide LayoutOk, NullsOk, Constructible, ValidBits;
  }

  // ---------------------------------------------------------------- values hidden under nulls

  function HidingField(hidden: byte): Data {
    Data(FixedWidthType(1), 0, 0, 2, [None, Some([7, hidden])], [])
  }

  /** Two rows, of which the second is null. */
  function HidingStruct(hidden: byte): Data {
    Data(StructType([FixedWidthType(1)]), 1, 0, 2, [Some([1])], [HidingField(hidden)])
  }

  lemma {:induction false} HidingFieldMeaning(hidden: byte)
    ensures Comparable(HidingField(hidden)) && Meaning(HidingField(hidden)) == [Bytes([7]), Bytes([hidden])]
  {
    var d := HidingField(hidden);
    CountAll(ValidBits(d));
    assert LayoutOk(d) && ValidityOk(d);
    assert WellFormed(d);
    assert FixedWidthSlot(d, 1, 0) == [7] && FixedWidthSlot(d, 1, 1) == [hidden];
    assert Slot(d, 0) == Bytes([7]) && Slot(d, 1) == Bytes([hidden]);
  }

  lemma {:induction false} HidingStructMeaning(hidden: byte)
    ensures Comparable(HidingStruct(hidden)) && NullCount(HidingStruct(hidden)) == 1
    ensures Meaning(HidingStruct(hidden)) == [Struct([Bytes([7])]), Null]
    ensures StructOk(HidingStruct(hidden)) && Field(HidingStruct(hidden), 0) == HidingField(hidden)
  {
    var d := HidingStruct(hidden);
    HidingFieldMeaning(hidden);
    assert LayoutOk(d) && ValidityOk(d);
    OneOfTwo(d.buffers[0].value);
    assert ValidBits(d) == [true, false];
    assert NullCount(d) == 1;
    assert WellFormed(d);
    StructSlot(d, 0);
    assert Slot(HidingField(hidden), 0) == Meaning(HidingField(hidden))[0];
    assert FieldsAt(d, 0) == [Bytes([7])];
    NullSlot(d, 1);
  }

  lemma {:induction false} OneOfTwo(s: seq<byte>)
    requires s == [1]
    ensures BitRange(s, 0, 2) == [true, false] && Count([true, false]) == 1
  {
    assert BitAt(s, 0) && !BitAt(s, 1);
    assert [true, false][1..] == [false] && [false][1..] == [];
  }

  /** Structs with the same values that ArrayEqual tells apart. */
  lemma {:induction false} HiddenValuesDiffer()
    ensures Comparable(HidingStruct(1)) && Comparable(HidingStruct(2))
    ensures SameValues(HidingStruct(1), HidingStruct(2)) && !HiddenAgree(HidingStruct(1), HidingStruct(2))
  {
    hide Meaning, WellFormed;
    HidingStructMeaning(1);
    HidingStructMeaning(2);
    HidingFieldMeaning(1);
    HidingFieldMeaning(2);
    assert Bytes([1]) != Bytes([2]);
    assert Meaning(HidingField(1))[1] != Meaning(HidingField(2))[1];
    assert !FieldEqual(HidingStruct(1), HidingStruct(2), 0);
  }
}
