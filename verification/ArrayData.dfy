/**
 Array data (arrow/array/data.go) and what it means: one optional value per slot.

 A buffer is the byte sequence it holds, or None for a nil *memory.Buffer.
 Buffers of finished arrays are never written again, so they are values here.
 */
module ArrayData {
  import opened Bits
  import opened Bitmaps
  import opened BitUtil
  import opened Int32View
  import opened Wrappers

  /** The largest Go int on a 64-bit platform. */
  const MAX_INT: int := 0x7fff_ffff_ffff_ffff

  const UNKNOWN_NULL_COUNT: int := -1

  datatype DataType =
    | NullType
    | BooleanType
    | FixedWidthType(byteWidth: nat)
    | BinaryType
    | ListType(elem: DataType)
    | FixedSizeListType(n: nat, elem: DataType)
    | StructType(fields: seq<DataType>)
    | MapType(entries: DataType)
    | OtherType(id: nat)  // dictionaries, unions, extensions, large types

  type Buffer = Option<seq<byte>>

  datatype Data = Data(dtype: DataType, nulls: int, offset: int, length: int,
                       buffers: seq<Buffer>, childData: seq<Data>)

  /** What a slot holds; Null for a slot without a value. */
  datatype Value =
    | Null
    | Boolean(b: bool)
    | Bytes(bytes: seq<byte>)
    | List(elems: seq<Value>)
    | Struct(fields: seq<Value>)

  /** buf.Bytes(), and no bytes for a nil buffer. */
  function BytesOrEmpty(b: Buffer): seq<byte> {
    if b.Some? then b.value else []
  }

  /** The offsets of a variable-size array: one more than there are slots. */
  function OffsetsOf(d: Data): seq<int>
    requires |d.buffers| > 1
  {
    Int32s(BytesOrEmpty(d.buffers[1]))
  }

  /** The offsets of the slots [offset, offset+length) start at 0 or later, never go down and end at most at bound. */
  ghost predicate OffsetsOk(offs: seq<int>, offset: nat, length: nat, bound: int) {
    length > 0 ==>
      && offset + length < |offs|
      && 0 <= offs[offset] && offs[offset + length] <= bound
      && forall i, j :: offset <= i <= j <= offset + length ==> offs[i] <= offs[j]
  }

  /** Lists with offsets. */
  predicate IsVariableList(t: DataType) {
    t.ListType? || t.MapType?
  }

  predicate IsList(t: DataType) {
    IsVariableList(t) || t.FixedSizeListType?
  }

  function ElemType(t: DataType): DataType
    requires IsList(t)
  {
    if t.MapType? then t.entries else t.elem
  }

  function BufferCount(t: DataType): nat {
    match t
    case BooleanType => 2
    case FixedWidthType(_) => 2
    case BinaryType => 3
    case ListType(_) => 2
    case MapType(_) => 2
    case _ => 1
  }

  /** The validity bitmap, when there is one, covers the slots. */
  ghost predicate ValidityOk(d: Data) {
    && 0 <= d.offset && 0 <= d.length && d.offset + d.length <= MAX_INT
    && |d.buffers| > 0
    && (!d.dtype.NullType? && d.buffers[0].Some? ==> InRange(d.buffers[0].value, d.offset, d.length))
  }

  ghost predicate NullsOk(d: Data)
    requires ValidityOk(d)
  {
    d.nulls == UNKNOWN_NULL_COUNT || d.nulls == NullCount(d)
  }

  ghost predicate BooleanOk(d: Data) {
    && 0 <= d.offset && 0 <= d.length && |d.buffers| == 2
    && (d.buffers[1].None? ==> d.length == 0)
    && (d.buffers[1].Some? ==> InRange(d.buffers[1].value, d.offset, d.length))
  }

  ghost predicate FixedWidthOk(d: Data, w: nat) {
    && 0 <= d.offset && 0 <= d.length && |d.buffers| == 2
    && (d.buffers[1].None? ==> d.length * w == 0)
    && (d.buffers[1].Some? ==> (d.offset + d.length) * w <= |d.buffers[1].value|)
  }

  /** A variable-size layout over values of the given number. */
  ghost predicate VariableOk(d: Data, bound: int) {
    && 0 <= d.offset && 0 <= d.length && |d.buffers| > 1
    && d.buffers[1].Some? && 4 * d.offset <= |d.buffers[1].value|
    && OffsetsOk(OffsetsOf(d), d.offset, d.length, bound)
  }

  /** Buffers and offsets describe every slot; children are at least as long as needed. */
  ghost predicate LayoutOk(d: Data) {
    && |d.buffers| == BufferCount(d.dtype)
    && match d.dtype
       case NullType => d.childData == []
       case BooleanType => d.childData == [] && BooleanOk(d)
       case FixedWidthType(w) => d.childData == [] && FixedWidthOk(d, w)
       case BinaryType => d.childData == [] && VariableOk(d, |BytesOrEmpty(d.buffers[2])|)
       case ListType(elem) => |d.childData| == 1 && d.childData[0].dtype == elem && VariableOk(d, d.childData[0].length)
       case MapType(entries) => |d.childData| == 1 && d.childData[0].dtype == entries
         && VariableOk(d, d.childData[0].length)
       case FixedSizeListType(n, elem) =>
         && |d.childData| == 1 && d.childData[0].dtype == elem && 0 <= d.offset
         && (d.offset + d.length) * n <= d.childData[0].length
       case StructType(fields) =>
         && |d.childData| == |fields| && 0 <= d.offset
         && forall k :: 0 <= k < |fields| ==>
           d.childData[k].dtype == fields[k] && d.offset + d.length <= d.childData[k].length
       case OtherType(_) => true
  }

  ghost predicate WellFormed(d: Data)
    decreases d
  {
    && ValidityOk(d) && NullsOk(d) && LayoutOk(d)
    && forall k :: 0 <= k < |d.childData| ==> WellFormed(d.childData[k])
  }

  /** IsValid, for every slot: a missing or empty bitmap means that every slot is valid. */
  ghost function ValidBits(d: Data): (r: seq<bool>)
    requires ValidityOk(d)
    ensures |r| == d.length
  {
    if d.dtype.NullType? then Repeat(false, d.length)
    else if d.buffers[0].None? then Repeat(true, d.length)
    else BitRange(d.buffers[0].value, d.offset, d.length)
  }

  ghost function NullCount(d: Data): (n: int)
    requires ValidityOk(d)
    ensures 0 <= n <= d.length
  {
    d.length - Count(ValidBits(d))
  }

  lemma {:induction false} WidthInRange(offset: nat, length: nat, i: nat, w: nat)
    requires i < length
    ensures 0 <= (offset + i) * w && (offset + i) * w + w <= (offset + length) * w
  {
    assert (offset + length) * w == (offset + i) * w + w + (length - i - 1) * w;
  }

  /** The range of values a variable-size slot spans. */
  function ValueRange(d: Data, i: nat, bound: int): (r: (nat, nat))
    requires VariableOk(d, bound) && i < d.length
    ensures r.0 <= r.1 <= bound
  {
    var offs := OffsetsOf(d);
    assert offs[d.offset] <= offs[d.offset + i] <= offs[d.offset + i + 1] <= offs[d.offset + d.length];
    (offs[d.offset + i], offs[d.offset + i + 1])
  }

  function FixedWidthSlot(d: Data, w: nat, i: nat): seq<byte>
    requires FixedWidthOk(d, w) && i < d.length
  {
    WidthInRange(d.offset, d.length, i, w);
    assert d.buffers[1].None? ==> (d.offset + i) * w + w == 0 by {
      if d.buffers[1].None? {
        assert w == 0;
      }
    }
    BytesOrEmpty(d.buffers[1])[(d.offset + i) * w..(d.offset + i) * w + w]
  }

  function BinarySlot(d: Data, i: nat): seq<byte>
    requires |d.buffers| == 3 && VariableOk(d, |BytesOrEmpty(d.buffers[2])|) && i < d.length
  {
    var (begin, end) := ValueRange(d, i, |BytesOrEmpty(d.buffers[2])|);
    BytesOrEmpty(d.buffers[2])[begin..end]
  }

  /** The range of child slots that a list slot spans. */
  function ChildRange(d: Data, i: nat): (r: (nat, nat))
    requires LayoutOk(d) && ValidityOk(d) && i < d.length
      && (d.dtype.ListType? || d.dtype.MapType? || d.dtype.FixedSizeListType?)
    ensures |d.childData| == 1 && r.0 <= r.1 <= d.childData[0].length
  {
    if d.dtype.FixedSizeListType? then
      WidthInRange(d.offset, d.length, i, d.dtype.n);
      ((d.offset + i) * d.dtype.n, (d.offset + i) * d.dtype.n + d.dtype.n)
    else
      ValueRange(d, i, d.childData[0].length)
  }

  /** The values of an array from one index to another. */
  ghost function Slots(d: Data, begin: nat, end: nat): (r: seq<Value>)
    requires WellFormed(d) && begin <= end <= d.length
    ensures |r| == end - begin
    decreases d, 1
  {
    seq(end - begin, t requires 0 <= t < end - begin => Slot(d, begin + t))
  }

  /** The value in slot i, counted from the start of the slice. */
  ghost function Slot(d: Data, i: nat): Value
    requires WellFormed(d) && i < d.length
    decreases d, 0
  {
    if !ValidBits(d)[i] then Null else
    match d.dtype
    case NullType => Null
    case BooleanType => Boolean(BitAt(d.buffers[1].value, d.offset + i))
    case FixedWidthType(w) => Bytes(FixedWidthSlot(d, w, i))
    case BinaryType => Bytes(BinarySlot(d, i))
    case ListType(_) => List(Slots(d.childData[0], ChildRange(d, i).0, ChildRange(d, i).1))
    case MapType(_) => List(Slots(d.childData[0], ChildRange(d, i).0, ChildRange(d, i).1))
    case FixedSizeListType(_, _) => List(Slots(d.childData[0], ChildRange(d, i).0, ChildRange(d, i).1))
    case StructType(fields) =>
      Struct(seq(|fields|, k requires 0 <= k < |fields| => Slot(d.childData[k], d.offset + i)))
    case OtherType(_) => Null
  }

  /** The meaning of an array: one optional value per slot. */
  ghost function Meaning(d: Data): (r: seq<Value>)
    requires WellFormed(d)
    ensures |r| == d.length
  {
    seq(d.length, i requires 0 <= i < d.length => Slot(d, i))
  }

  /** The meanings of several arrays, in order. */
  ghost function Meanings(data: seq<Data>): (r: seq<seq<Value>>)
    requires forall i :: 0 <= i < |data| ==> WellFormed(data[i])
    ensures |r| == |data| && forall i :: 0 <= i < |r| ==> |r[i]| == data[i].length
  {
    seq(|data|, i requires 0 <= i < |data| && WellFormed(data[i]) => Meaning(data[i]))
  }

  lemma {:induction false} SlotsMeaning(d: Data, begin: nat, end: nat)
    requires WellFormed(d) && begin <= end <= d.length
    ensures Slots(d, begin, end) == Meaning(d)[begin..end]
  {
    hide Slot, WellFormed;
  }

  // ---------------------------------------------------------------- slots read off the buffers

  /** A slot is valid unless its bit in the bitmap is clear; arrays of nulls have no valid slots. */
  lemma {:induction false} ValidBitIs(d: Data, i: nat)
    requires ValidityOk(d) && i < d.length
    ensures !d.dtype.NullType? && d.buffers[0].Some? ==> d.offset + i < 8 * |d.buffers[0].value|
    ensures ValidBits(d)[i] <==>
      !d.dtype.NullType? && (d.buffers[0].None? || BitAt(d.buffers[0].value, d.offset + i))
  {
  }

  lemma {:induction false} BooleanSlotIs(d: Data, i: nat)
    requires WellFormed(d) && i < d.length && d.dtype.BooleanType? && ValidBits(d)[i]
    ensures d.buffers[1].Some? && d.offset + i < 8 * |d.buffers[1].value|
    ensures Slot(d, i) == Boolean(BitAt(d.buffers[1].value, d.offset + i))
  {
    hide ValidBits, NullsOk;
  }

  lemma {:induction false} FixedWidthSlotIs(d: Data, w: nat, i: nat)
    requires WellFormed(d) && i < d.length && d.dtype == FixedWidthType(w) && ValidBits(d)[i]
    ensures d.buffers[1].Some? ==>
      && 0 <= (d.offset + i) * w <= (d.offset + i) * w + w <= |d.buffers[1].value|
      && Slot(d, i) == Bytes(d.buffers[1].value[(d.offset + i) * w..(d.offset + i) * w + w])
    ensures d.buffers[1].None? ==> Slot(d, i) == Bytes([])
  {
    hide ValidBits, NullsOk;
    WidthInRange(d.offset, d.length, i, w);
    if d.buffers[1].None? && w > 0 {
      MulMonotone(1, d.length, w);
    }
  }

  /** The range of values that a variable-size slot spans: from its offset to the next. */
  lemma {:induction false} ValueRangeIs(d: Data, i: nat, bound: int)
    requires VariableOk(d, bound) && i < d.length
    ensures |d.buffers| > 1 && d.buffers[1].Some?
    ensures var b := d.buffers[1].value;
      && 4 * (d.offset + i + 2) <= |b|
      && 0 <= Int32At(b, d.offset + i) <= Int32At(b, d.offset + i + 1) <= bound
      && ValueRange(d, i, bound) == (Int32At(b, d.offset + i), Int32At(b, d.offset + i + 1))
  {
    hide Int32At;
    var r := ValueRange(d, i, bound);
  }

  lemma {:induction false} BinarySlotIs(d: Data, i: nat)
    requires WellFormed(d) && i < d.length && d.dtype.BinaryType? && ValidBits(d)[i]
    ensures d.buffers[1].Some? && 4 * (d.offset + i + 2) <= |d.buffers[1].value|
    ensures var begin, end := Int32At(d.buffers[1].value, d.offset + i), Int32At(d.buffers[1].value, d.offset + i + 1);
      if d.buffers[2].Some? then
        && 0 <= begin <= end <= |d.buffers[2].value|
        && Slot(d, i) == Bytes(d.buffers[2].value[begin..end])
      else Slot(d, i) == Bytes([])
  {
    hide ValidBits, NullsOk, VariableOk, ValueRange, Int32At;
    ValueRangeIs(d, i, |BytesOrEmpty(d.buffers[2])|);
    var r := ValueRange(d, i, |BytesOrEmpty(d.buffers[2])|);
  }

  /** The child slots of a list slot: from its offset to the next, or the next n for lists of n. */
  lemma {:induction false} ListSlotIs(d: Data, i: nat)
    requires WellFormed(d) && i < d.length && IsList(d.dtype)
    ensures |d.childData| == 1 && WellFormed(d.childData[0])
    ensures d.dtype.ListType? || d.dtype.MapType? ==>
      && d.buffers[1].Some? && 4 * (d.offset + i + 2) <= |d.buffers[1].value|
      && var begin, end := Int32At(d.buffers[1].value, d.offset + i), Int32At(d.buffers[1].value, d.offset + i + 1);
         && 0 <= begin <= end <= d.childData[0].length && ChildRange(d, i) == (begin, end)
         && (ValidBits(d)[i] ==> Slot(d, i) == List(Meaning(d.childData[0])[begin..end]))
    ensures d.dtype.FixedSizeListType? ==>
      && var n := d.dtype.n; var begin, end := (d.offset + i) * n, (d.offset + i + 1) * n;
         && 0 <= begin <= end <= d.childData[0].length && ChildRange(d, i) == (begin, end)
         && (ValidBits(d)[i] ==> Slot(d, i) == List(Meaning(d.childData[0])[begin..end]))
  {
    hide ValidBits, NullsOk, VariableOk, ValueRange, Int32At, Meaning, Slots;
    assert WellFormed(d.childData[0]);
    var r := ChildRange(d, i);
    SlotsMeaning(d.childData[0], r.0, r.1);
    if d.dtype.FixedSizeListType? {
      WidthInRange(d.offset, d.length, i, d.dtype.n);
      assert (d.offset + i + 1) * d.dtype.n == (d.offset + i) * d.dtype.n + d.dtype.n;
    } else {
      ValueRangeIs(d, i, d.childData[0].length);
    }
  }

  /** Field k of a struct slot: the child at the parent's offset. */
  lemma {:induction false} StructFieldIs(d: Data, i: nat, k: nat)
    requires WellFormed(d) && i < d.length && d.dtype.StructType? && k < |d.dtype.fields| && ValidBits(d)[i]
    ensures |d.childData| == |d.dtype.fields| && WellFormed(d.childData[k])
    ensures 0 <= d.offset && d.offset + i < d.childData[k].length
    ensures Slot(d, i).Struct? && |Slot(d, i).fields| == |d.dtype.fields|
    ensures Slot(d, i).fields[k] == Meaning(d.childData[k])[d.offset + i]
  {
    hide ValidBits, NullsOk;
    assert WellFormed(d.childData[k]);
  }

  // ---------------------------------------------------------------- slicing

  /** The data that NewSliceData makes: the same buffers and children, seen through another window. */
  function SliceData(d: Data, i: int, j: int): Data {
    Data(d.dtype, if d.nulls == 0 then 0 else UNKNOWN_NULL_COUNT, d.offset + i, j - i, d.buffers, d.childData)
  }

  lemma {:induction false} RangeSlice(s: seq<byte>, from: nat, n: nat, i: nat, j: nat)
    requires InRange(s, from, n) && i <= j <= n
    ensures BitRange(s, from + i, j - i) == BitRange(s, from, n)[i..j]
  {
    hide BitAt;
  }

  lemma {:induction false} SliceValidBits(d: Data, i: nat, j: nat)
    requires WellFormed(d) && i <= j <= d.length
    ensures ValidBits(SliceData(d, i, j)) == ValidBits(d)[i..j]
  {
    hide BitRange, LayoutOk, NullsOk;
    if !d.dtype.NullType? && d.buffers[0].Some? {
      RangeSlice(d.buffers[0].value, d.offset, d.length, i, j);
    }
  }

  lemma {:induction false} CountAll(bits: seq<bool>)
    ensures Count(bits) == |bits| <==> forall k :: 0 <= k < |bits| ==> bits[k]
  {
    if bits != [] {
      CountAll(bits[1..]);
      assert bits == [bits[0]] + bits[1..];
    }
  }

  lemma {:induction false} CountNone(bits: seq<bool>)
    ensures Count(bits) == 0 <==> forall k :: 0 <= k < |bits| ==> !bits[k]
  {
    if bits != [] {
      CountNone(bits[1..]);
      assert bits == [bits[0]] + bits[1..];
    }
  }

  lemma {:induction false} MulMonotone(a: nat, b: nat, w: nat)
    requires a <= b
    ensures a * w <= b * w
  {
  }

  lemma {:induction false} SliceFixedWidth(d: Data, w: nat, r: Data, i: nat, j: nat)
    requires FixedWidthOk(d, w) && i <= j <= d.length
    requires r.buffers == d.buffers && r.offset == d.offset + i && r.length == j - i
    ensures FixedWidthOk(r, w)
  {
    MulMonotone(d.offset + j, d.offset + d.length, w);
    MulMonotone(j - i, d.length, w);
  }

  lemma {:induction false} SliceVariable(d: Data, bound: int, r: Data, i: nat, j: nat)
    requires VariableOk(d, bound) && i <= j <= d.length
    requires r.buffers == d.buffers && r.offset == d.offset + i && r.length == j - i
    ensures VariableOk(r, bound)
  {
    if i < j {
      var offs := OffsetsOf(d);
      assert offs[d.offset] <= offs[d.offset + i] && offs[d.offset + j] <= offs[d.offset + d.length];
    }
  }

  lemma {:induction false} SliceNulls(d: Data, i: nat, j: nat)
    requires WellFormed(d) && i <= j <= d.length
    ensures ValidityOk(SliceData(d, i, j)) && NullsOk(SliceData(d, i, j))
  {
    hide ValidBits;
    var r := SliceData(d, i, j);
    SliceValidBits(d, i, j);
    if d.nulls == 0 {
      CountAll(ValidBits(d));
      CountAll(ValidBits(r));
    }
  }

  lemma {:induction false} SliceLayout(d: Data, r: Data, i: nat, j: nat)
    requires LayoutOk(d) && i <= j <= d.length
    requires r == d.(nulls := r.nulls, offset := d.offset + i, length := j - i)
    ensures LayoutOk(r)
  {
    hide FixedWidthOk, VariableOk;
    match d.dtype {
      case FixedWidthType(w) => SliceFixedWidth(d, w, r, i, j);
      case BinaryType => SliceVariable(d, |BytesOrEmpty(d.buffers[2])|, r, i, j);
      case ListType(_) => SliceVariable(d, d.childData[0].length, r, i, j);
      case MapType(_) => SliceVariable(d, d.childData[0].length, r, i, j);
      case FixedSizeListType(n, _) => MulMonotone(d.offset + j, d.offset + d.length, n);
      case _ =>
    }
  }

  lemma {:induction false} SliceWellFormed(d: Data, i: nat, j: nat)
    requires WellFormed(d) && i <= j <= d.length
    ensures WellFormed(SliceData(d, i, j))
  {
    hide LayoutOk, ValidityOk, NullsOk;
    SliceNulls(d, i, j);
    SliceLayout(d, SliceData(d, i, j), i, j);
  }

  /** Slicing the data slices the meaning. */
  lemma {:induction false} SliceMeaning(d: Data, i: nat, j: nat)
    requires WellFormed(d) && i <= j <= d.length
    ensures WellFormed(SliceData(d, i, j))
    ensures Meaning(SliceData(d, i, j)) == Meaning(d)[i..j]
  {
    hide BitAt, Count, Int32s;
    SliceWellFormed(d, i, j);
    var r := SliceData(d, i, j);
    SliceValidBits(d, i, j);
    forall k | 0 <= k < j - i
      ensures Slot(r, k) == Slot(d, i + k)
    {
    }
  }

  /** NewSliceData; it fails where the source panics. */
  function NewSliceData(d: Data, i: int, j: int): Result<Data> {
    if j > d.length || i > j || d.offset + i > d.offset + d.length then Failure("arrow/array: index out of range")
    else Success(SliceData(d, i, j))
  }

  /**
   What is accepted ends inside the data, whatever the sign of its start: ranges
   outside the data are refused if and only if the start is not negative or the
   guard refuses the range anyway. An accepted range inside the data is the
   slice of the meaning.
   */
  lemma {:induction false} NewSliceMeaning(d: Data, i: int, j: int)
    requires WellFormed(d)
    ensures NewSliceData(d, i, j).Success? <==> i <= j <= d.length
    ensures (NewSliceData(d, i, j).Success? <==> 0 <= i <= j <= d.length) <==> (0 <= i || j < i || d.length < j)
    ensures i <= j <= d.length ==>
      var r := NewSliceData(d, i, j).value;
      && r.offset == d.offset + i && r.length == j - i && r.nulls == (if d.nulls == 0 then 0 else -1)
      && r.dtype == d.dtype && r.buffers == d.buffers && r.childData == d.childData
    ensures 0 <= i <= j <= d.length ==>
      && WellFormed(NewSliceData(d, i, j).value)
      && Meaning(NewSliceData(d, i, j).value) == Meaning(d)[i..j]
  {
    if 0 <= i <= j <= d.length {
      SliceMeaning(d, i, j);
    }
  }

  /**
   A slice of a slice is the slice with added offsets. A negative start reaches
   back into what lies in front of the slice.
   */
  lemma {:induction false} SliceSlice(d: Data, i: nat, j: nat, k: int, l: int)
    requires WellFormed(d) && i <= j <= d.length && 0 <= i + k && k <= l <= j - i
    ensures NewSliceData(SliceData(d, i, j), k, l) == Success(SliceData(d, i + k, i + l))
    ensures WellFormed(SliceData(d, i + k, i + l)) && Meaning(SliceData(d, i + k, i + l)) == Meaning(d)[i + k..i + l]
  {
    SliceMeaning(d, i + k, i + l);
  }

  /** The second of two slots; the first is null. */
  function SecondSlot(): Data {
    Data(FixedWidthType(1), 0, 1, 1, [Some([2]), Some([7, 8])], [])
  }

  /** A negative start that is accepted: the result says that it has no nulls, and its first slot is null. */
  lemma {:induction false} NegativeStart()
    ensures WellFormed(SecondSlot()) && NewSliceData(SecondSlot(), -1, 1).Success?
    ensures !WellFormed(NewSliceData(SecondSlot(), -1, 1).value)
  {
    var d, r := SecondSlot(), NewSliceData(SecondSlot(), -1, 1).value;
    assert ValidBits(d) == [true] by {
      assert BitAt([2], 1);
    }
    assert LayoutOk(d) && ValidityOk(d);
    CountAll(ValidBits(d));
    if WellFormed(r) {
      assert !ValidBits(r)[0] by {
        assert !BitAt([2], 0);
      }
      CountAll(ValidBits(r));
    }
  }
}
