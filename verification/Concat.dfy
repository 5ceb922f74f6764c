/** concat and Concatenate of arrow/array/concat.go: recursive merging of sliced, nested array data. */
module Concat {
  import opened Bits
  import opened Bitmaps
  import opened BitUtil
  import opened Int32View
  import opened Seqs
  import opened Wrappers
  import opened ArrayData
  import opened Arrays
  import opened ConcatBuffers
  import opened ConcatSpec
  import opened ConcatLayouts

  // ---------------------------------------------------------------- gathering

  ghost predicate HasBuffer(d: Data, idx: nat) {
    idx < |d.buffers| && 0 <= d.offset && 0 <= d.length
  }

  ghost predicate HaveBuffers(data: seq<Data>, idx: nat) {
    forall i :: 0 <= i < |data| ==> HasBuffer(data[i], idx)
  }

  /** gatherFixedBuffers: the bytes of the slots in buffer idx; nil buffers are left out. */
  function GatherFixedBuffers(data: seq<Data>, idx: nat, byteWidth: nat): seq<Slice>
    requires HaveBuffers(data, idx)
  {
    if data == [] then [] else GatherFixed(data[0], idx, byteWidth) + GatherFixedBuffers(data[1..], idx, byteWidth)
  }

  function GatherFixed(d: Data, idx: nat, byteWidth: nat): seq<Slice>
    requires HasBuffer(d, idx)
  {
    if d.buffers[idx].None? then []
    else [Slice(d.buffers[idx].value, d.offset * byteWidth, (d.offset + d.length) * byteWidth)]
  }

  ghost predicate NonNegative(ranges: seq<Rng>) {
    forall i :: 0 <= i < |ranges| ==> 0 <= ranges[i].offset && 0 <= ranges[i].len
  }

  /** gatherBufferRanges: the given range of buffer idx of each input; nil buffers are left out. */
  function GatherBufferRanges(data: seq<Data>, idx: nat, ranges: seq<Rng>): seq<Slice>
    requires |data| == |ranges| && HaveBuffers(data, idx) && NonNegative(ranges)
  {
    if data == [] then [] else GatherRange(data[0], idx, ranges[0]) + GatherBufferRanges(data[1..], idx, ranges[1..])
  }

  function GatherRange(d: Data, idx: nat, r: Rng): seq<Slice>
    requires HasBuffer(d, idx) && 0 <= r.offset && 0 <= r.len
  {
    if d.buffers[idx].None? then [] else [Slice(d.buffers[idx].value, r.offset, r.offset + r.len)]
  }

  ghost predicate SlicesOk(bufs: seq<Slice>) {
    forall i :: 0 <= i < |bufs| ==> bufs[i].Ok()
  }

  lemma {:induction false} AllBytesConcat(x: seq<Slice>, y: seq<Slice>)
    requires SlicesOk(x) && SlicesOk(y)
    ensures SlicesOk(x + y) && AllBytes(x + y) == AllBytes(x) + AllBytes(y)
  {
  }

  lemma {:induction false} FixedHaveBuffers(data: seq<Data>, w: nat)
    requires forall i :: 0 <= i < |data| ==> FixedWidthOk(data[i], w)
    ensures HaveBuffers(data, 1)
  {
    forall i | 0 <= i < |data|
      ensures HasBuffer(data[i], 1)
    {
      assert FixedWidthOk(data[i], w);
    }
  }

  lemma {:induction false} GatheredFixed(data: seq<Data>, w: nat)
    requires forall i :: 0 <= i < |data| ==> FixedWidthOk(data[i], w)
    requires HaveBuffers(data, 1)
    ensures SlicesOk(GatherFixedBuffers(data, 1, w))
    ensures Flatten(AllBytes(GatherFixedBuffers(data, 1, w))) == Flatten(FixedPieces(data, w))
  {
    hide FixedWidthOk, HasBuffer, GatherFixed;
    if data != [] {
      var d, rest := data[0], data[1..];
      assert FixedWidthOk(d, w) && HasBuffer(d, 1);
      GatheredFixed(rest, w);
      GatheredFixedOne(d, w);
      assert FixedPieces(data, w) == [FixedPiece(d, w)] + FixedPieces(rest, w);
      GatheredStep(GatherFixed(d, 1, w), FixedPiece(d, w), GatherFixedBuffers(rest, 1, w), FixedPieces(rest, w));
    }
  }

  /** No slice stands for no bytes, one slice for its bytes. */
  ghost predicate Stands(one: seq<Slice>, piece: seq<byte>) {
    SlicesOk(one) && (one == [] ==> piece == []) && (one != [] ==> |one| == 1 && one[0].Bytes() == piece)
  }

  lemma {:induction false} GatheredStep(one: seq<Slice>, piece: seq<byte>, bufs: seq<Slice>, pieces: seq<seq<byte>>)
    requires Stands(one, piece) && SlicesOk(bufs) && Flatten(AllBytes(bufs)) == Flatten(pieces)
    ensures SlicesOk(one + bufs) && Flatten(AllBytes(one + bufs)) == Flatten([piece] + pieces)
  {
    hide Flatten;
    AllBytesConcat(one, bufs);
    FlattenConcat(AllBytes(one), AllBytes(bufs));
    FlattenConcat([piece], pieces);
    FlattenOne(piece);
    if one == [] {
      FlattenNone<byte>();
      assert AllBytes(one) == [];
    } else {
      assert AllBytes(one) == [piece];
    }
  }

  lemma {:induction false} FlattenOne<T>(piece: seq<T>)
    ensures Flatten([piece]) == piece
  {
    assert Flatten([piece]) == piece + Flatten([]);
  }

  lemma {:induction false} FlattenNone<T>()
    ensures Flatten<T>([]) == []
  {
  }

  lemma {:induction false} GatheredFixedOne(d: Data, w: nat)
    requires FixedWidthOk(d, w) && HasBuffer(d, 1)
    ensures Stands(GatherFixed(d, 1, w), FixedPiece(d, w))
  {
    MulMonotone(d.offset, d.offset + d.length, w);
  }

  lemma {:induction false} RunsHaveBuffers(data: seq<Data>)
    requires HasRuns(data)
    ensures HaveBuffers(data, 1)
  {
    hide RunOk, OffsetRun;
    forall i | 0 <= i < |data|
      ensures HasBuffer(data[i], 1)
    {
      assert HasRun(data[i]);
    }
  }

  ghost predicate OffsetSlicesOk(bufs: seq<Slice>) {
    forall i :: 0 <= i < |bufs| ==> OffsetSliceOk(bufs[i])
  }

  lemma {:induction false} GatheredOffsets(data: seq<Data>)
    requires HasRuns(data) && HaveBuffers(data, 1)
    ensures OffsetSlicesOk(GatherFixedBuffers(data, 1, 4))
    ensures RunsOf(GatherFixedBuffers(data, 1, 4)) == DataRuns(data)
  {
    hide HasBuffer, GatherFixed, RunOf, OffsetRun, RunOk;
    if data != [] {
      var d, rest := data[0], data[1..];
      assert HasRun(d) && HasBuffer(d, 1);
      GatheredOffsets(rest);
      GatheredRun(d);
      var one, bufs := GatherFixed(d, 1, 4), GatherFixedBuffers(rest, 1, 4);
      assert one + bufs == GatherFixedBuffers(data, 1, 4);
      assert RunsOf(one + bufs) == [RunOf(one[0])] + RunsOf(bufs);
      assert DataRuns(data) == [OffsetRun(d)] + DataRuns(rest);
    }
  }

  lemma {:induction false} GatheredRun(d: Data)
    requires HasRun(d) && HasBuffer(d, 1)
    ensures |GatherFixed(d, 1, 4)| == 1
    ensures OffsetSliceOk(GatherFixed(d, 1, 4)[0]) && RunOf(GatherFixed(d, 1, 4)[0]) == OffsetRun(d)
  {
    hide Int32At;
    var b := Slice(d.buffers[1].value, d.offset * 4, (d.offset + d.length) * 4);
    if d.length > 0 {
      var x, y := RunOf(b), OffsetRun(d);
      forall k | 0 <= k < |x|
        ensures x[k] == y[k]
      {
        Int32Slice(b.base, d.offset, d.offset + d.length + 1, k);
      }
    }
  }

  lemma {:induction false} Int32Slice(s: seq<byte>, from: nat, to: nat, k: nat)
    requires from + k < to && 4 * to <= |s|
    ensures Int32At(s[4 * from..4 * to], k) == Int32At(s, from + k)
  {
    hide ByteValue, Int32Of;
  }

  lemma {:induction false} BinaryHaveBuffers(data: seq<Data>)
    requires BinaryInputs(data)
    ensures HaveBuffers(data, 2)
  {
    hide HasRun;
    forall i | 0 <= i < |data|
      ensures HasBuffer(data[i], 2)
    {
      assert BinaryInput(data[i]);
    }
  }

  lemma {:induction false} GatheredValues(data: seq<Data>, ranges: seq<Rng>)
    requires BinaryInputs(data) && HasRuns(data) && HaveBuffers(data, 2) && |ranges| == |data| && NonNegative(ranges)
    requires forall i :: 0 <= i < |data| ==> ranges[i] == RangeOf(data[i])
    ensures SlicesOk(GatherBufferRanges(data, 2, ranges))
    ensures Flatten(AllBytes(GatherBufferRanges(data, 2, ranges))) == Flatten(ValuePieces(data))
  {
    hide HasRun, BinaryInput, ValuePiece, RangeOf, HasBuffer, GatherRange;
    if data != [] {
      var d, rest := data[0], data[1..];
      assert BinaryInput(d) && HasRun(d) && HasBuffer(d, 2);
      GatheredValues(rest, ranges[1..]);
      GatheredValue(d);
      assert ValuePieces(data) == [ValuePiece(d)] + ValuePieces(rest);
      GatheredStep(GatherRange(d, 2, ranges[0]), ValuePiece(d), GatherBufferRanges(rest, 2, ranges[1..]),
        ValuePieces(rest));
    }
  }

  lemma {:induction false} GatheredValue(d: Data)
    requires BinaryInput(d) && HasBuffer(d, 2)
    ensures Stands(GatherRange(d, 2, RangeOf(d)), ValuePiece(d))
  {
    hide VariableOk, HasRun, RangeOf;
    VariableRun(d, |BytesOrEmpty(d.buffers[2])|);
  }

  /** gatherChildrenRanges and gatherChildrenMultiplier: a slice of child idx of each input. */
  function GatherChildren(data: seq<Data>, idx: nat, ranges: seq<Rng>): (r: seq<Data>)
    requires |data| == |ranges| && ChildRangesOk(data, idx, ranges)
    ensures |r| == |data|
    ensures forall i :: 0 <= i < |r| ==>
      r[i] == SliceData(data[i].childData[idx], ranges[i].offset, ranges[i].offset + ranges[i].len)
  {
    seq(|data|, i requires 0 <= i < |data| && ChildRangeOk(data[i], idx, ranges[i]) =>
      SliceData(data[i].childData[idx], ranges[i].offset, ranges[i].offset + ranges[i].len))
  }

  ghost predicate ChildRangeOk(d: Data, idx: nat, r: Rng) {
    idx < |d.childData| && WellFormed(d.childData[idx]) && 0 <= r.offset && 0 <= r.len
      && r.offset + r.len <= d.childData[idx].length
  }

  ghost predicate ChildRangesOk(data: seq<Data>, idx: nat, ranges: seq<Rng>)
    requires |data| == |ranges|
  {
    forall i :: 0 <= i < |data| ==> ChildRangeOk(data[i], idx, ranges[i])
  }

  /** The ranges of a child that the slots of each input span, n child slots a slot. */
  function ScaledRanges(data: seq<Data>, n: nat): (r: seq<Rng>)
    ensures |r| == |data|
  {
    seq(|data|, i requires 0 <= i < |data| =>
      Rng(data[i].offset * n, (data[i].offset + data[i].length) * n - data[i].offset * n))
  }

  // ---------------------------------------------------------------- when it succeeds

  /** Exactly the inputs that concat accepts: bitmaps that fit an int, offsets that fit an int32, known types. */
  ghost predicate Concatenable(data: seq<Data>)
    requires SameTyped(data)
    decreases data[0].dtype
  {
    && (NeedsBitmap(data) ==> Total(data, |data|) <= MAX_INT)
    && match data[0].dtype
       case NullType => true
       case BooleanType => Total(data, |data|) <= MAX_INT
       case FixedWidthType(_) => true
       case BinaryType =>
         BinaryInputsOk(data);
         Base(DataRuns(data), |data|) <= MAX_INT32
       case ListType(_) | MapType(_) =>
         ListInputsOk(data);
         RangeSlicesTyped(data);
         Base(DataRuns(data), |data|) <= MAX_INT32 && Concatenable(RangeSlices(data))
       case FixedSizeListType(n, _) =>
         FixedListInputsOk(data);
         Concatenable(ScaledSlices(data, n))
       case StructType(fields) =>
         forall f :: 0 <= f < |fields| ==>
           (StructInputsOk(data, f); Concatenable(FieldSlices(data, f)))
       case OtherType(_) => false
  }

  /** The lengths add up within an int, at every level. */
  ghost predicate LengthsFit(data: seq<Data>)
    requires SameTyped(data)
    decreases data[0].dtype
  {
    && Total(data, |data|) <= MAX_INT
    && match data[0].dtype
       case ListType(_) | MapType(_) =>
         ListInputsOk(data);
         RangeSlicesTyped(data);
         LengthsFit(RangeSlices(data))
       case FixedSizeListType(n, _) =>
         FixedListInputsOk(data);
         LengthsFit(ScaledSlices(data, n))
       case StructType(fields) =>
         forall f :: 0 <= f < |fields| ==>
           (StructInputsOk(data, f); LengthsFit(FieldSlices(data, f)))
       case _ => true
  }

  // ---------------------------------------------------------------- what it assembles

  /**
   The window starts at 0, length and null count are the ones computed from the
   inputs, the length as a Go int, and there is a bitmap exactly when there may
   be nulls to mark.
   */
  ghost predicate HeaderAssembled(data: seq<Data>, out: Data)
    requires SameTyped(data)
  {
    && out.dtype == data[0].dtype && |out.buffers| == BufferCount(out.dtype)
    && out.offset == 0 && IsSumInt(out.length, Total(data, |data|)) && out.nulls == NullsOf(data, |data|)
    && (out.buffers[0].Some? <==> NeedsBitmap(data))
  }

  /** At every level, whether or not the lengths fit: null counts as computed, and one child per child of the inputs. */
  ghost predicate Assembled(data: seq<Data>, out: Data)
    requires SameTyped(data)
    decreases data[0].dtype
  {
    && HeaderAssembled(data, out)
    && match data[0].dtype
       case ListType(_) | MapType(_) =>
         ListInputsOk(data);
         RangeSlicesTyped(data);
         |out.childData| == 1 && Assembled(RangeSlices(data), out.childData[0])
       case FixedSizeListType(n, _) =>
         FixedListInputsOk(data);
         |out.childData| == 1 && Assembled(ScaledSlices(data, n), out.childData[0])
       case StructType(fields) =>
         && |out.childData| == |fields|
         && forall f :: 0 <= f < |fields| ==>
           (StructInputsOk(data, f); Assembled(FieldSlices(data, f), out.childData[f]))
       case OtherType(_) => false
       case _ => out.childData == []
  }

  // ---------------------------------------------------------------- concat

  /** out with the header of h and the given buffers and children. */
  function WithParts(h: Data, parts: seq<Buffer>, children: seq<Data>): (out: Data)
    requires |h.buffers| > 0
  {
    h.(buffers := [h.buffers[0]] + parts, childData := children)
  }

  lemma {:induction false} SameHeader(data: seq<Data>, h: Data, parts: seq<Buffer>, children: seq<Data>)
    requires SameTyped(data) && HeaderOf(data, h) && 1 + |parts| == BufferCount(h.dtype)
    ensures HeaderOf(data, WithParts(h, parts, children))
  {
    hide Flatten, BitRange, NullsOf, Total;
  }

  lemma {:induction false} PartsAssembled(data: seq<Data>, h: Data, parts: seq<Buffer>, children: seq<Data>)
    requires SameTyped(data) && HeaderAssembled(data, h) && 1 + |parts| == BufferCount(h.dtype)
    ensures HeaderAssembled(data, WithParts(h, parts, children))
  {
    hide NullsOf, WellFormed;
  }

  /** Length, null count and validity bitmap of the result. */
  method ConcatHeader(data: seq<Data>) returns (r: Result<Data>)
    requires SameTyped(data)
    ensures r.Success? <==> NeedsBitmap(data) ==> Total(data, |data|) <= MAX_INT
    ensures r.Success? ==>
      r.value.dtype == data[0].dtype && |r.value.buffers| == BufferCount(data[0].dtype) && r.value.childData == []
    ensures r.Success? && Total(data, |data|) <= MAX_INT ==> HeaderOf(data, r.value)
    ensures r.Success? ==> HeaderAssembled(data, r.value)
  {
    hide Flatten, BitRange, WrapAdd, WellFormed, AllRangeBits, IsSumInt;
    var length, nulls := 0, 0;
    SumIntZero();
    for i := 0 to |data|
      invariant Total(data, i) <= MAX_INT ==> length == Total(data, i)
      invariant IsSumInt(length, Total(data, i))
      invariant nulls == NullsOf(data, i)
    {
      TotalMonotone(data, 0, i);
      TotalMonotone(data, i, i + 1);
      if Total(data, i + 1) <= MAX_INT {
        WrapAddFits(length, data[i].length);
      }
      SumIntNext(length, Total(data, i), data[i].length);
      length := WrapAdd(length, data[i].length);
      if nulls == UNKNOWN_NULL_COUNT || data[i].nulls == UNKNOWN_NULL_COUNT {
        nulls := UNKNOWN_NULL_COUNT;
      } else {
        nulls := WrapAdd(nulls, data[i].nulls);
      }
    }
    var dtype := data[0].dtype;
    var validity: Buffer := None;
    TotalMonotone(data, 0, |data|);
    if nulls != 0 && !dtype.NullType? {
      ValidityRangesOk(data);
      FlattenLength(Validities(data));
      StartIsTotal(data, Validities(data), |data|);
      var bm := ConcatBitmaps(GatherBitmaps(data, 0));
      if bm.Failure? {
        return Failure(bm.error);
      }
      validity := Some(bm.value);
    }
    var rest: seq<Buffer> := seq(BufferCount(dtype) - 1, i => None);
    r := Success(Data(dtype, nulls, 0, length, [validity] + rest, []));
  }

  method ConcatBoolean(data: seq<Data>, h: Data) returns (r: Result<Data>)
    requires SameTyped(data) && data[0].dtype.BooleanType? && h.dtype == data[0].dtype && |h.buffers| == 2
    ensures r.Success? <==> Total(data, |data|) <= MAX_INT
    ensures r.Success? && HeaderOf(data, h) ==> IsConcatenation(data, r.value)
    ensures r.Success? && HeaderAssembled(data, h) ==> HeaderAssembled(data, r.value) && r.value.childData == []
  {
    hide Flatten, BitRange, WellFormed, AllRangeBits, HeaderOf, IsConcatenation, HeaderAssembled;
    BooleanRangesOk(data);
    var bitmaps := GatherBitmaps(data, 1);
    FlattenLength(AllRangeBits(bitmaps));
    StartIsTotal(data, AllRangeBits(bitmaps), |data|);
    var bm := ConcatBitmaps(bitmaps);
    if bm.Failure? {
      return Failure(bm.error);
    }
    var out := WithParts(h, [Some(bm.value)], []);
    if HeaderAssembled(data, h) {
      PartsAssembled(data, h, [Some(bm.value)], []);
    }
    if HeaderOf(data, h) {
      SameHeader(data, h, [Some(bm.value)], []);
      HeaderOffset(data, out);
      BooleanConcat(data, out);
    }
    r := Success(out);
  }

  method ConcatFixedWidth(data: seq<Data>, h: Data, w: nat) returns (out: Data)
    requires SameTyped(data) && data[0].dtype == FixedWidthType(w) && h.dtype == data[0].dtype && |h.buffers| == 2
    ensures HeaderOf(data, h) ==> IsConcatenation(data, out)
    ensures HeaderAssembled(data, h) ==> HeaderAssembled(data, out) && out.childData == []
  {
    hide Flatten, WellFormed, AllBytes, HeaderOf, IsConcatenation, FixedWidthOk, HasBuffer, HeaderAssembled;
    FixedInputs(data, w);
    FixedHaveBuffers(data, w);
    GatheredFixed(data, w);
    var bytes := ConcatBytes(GatherFixedBuffers(data, 1, w));
    out := WithParts(h, [Some(bytes)], []);
    if HeaderAssembled(data, h) {
      PartsAssembled(data, h, [Some(bytes)], []);
    }
    if HeaderOf(data, h) {
      SameHeader(data, h, [Some(bytes)], []);
      FixedConcat(data, out, w);
    }
  }

  method ConcatBinary(data: seq<Data>, h: Data) returns (r: Result<Data>)
    requires SameTyped(data) && data[0].dtype.BinaryType? && h.dtype == data[0].dtype && |h.buffers| == 3
    requires BinaryInputs(data) && HasRuns(data)
    ensures r.Success? <==> Base(DataRuns(data), |data|) <= MAX_INT32
    ensures r.Success? && HeaderOf(data, h) ==> IsConcatenation(data, r.value)
    ensures r.Success? && HeaderAssembled(data, h) ==> HeaderAssembled(data, r.value) && r.value.childData == []
  {
    hide Flatten, WellFormed, AllBytes, HeaderOf, IsConcatenation, HasBuffer, BinaryInputs, HasRuns, JoinedOffsets,
      Int32s, Base, HeaderAssembled, DataRuns, RunsOf, Total;
    RunsHaveBuffers(data);
    BinaryHaveBuffers(data);
    GatheredOffsets(data);
    var offsets := ConcatOffsets(GatherFixedBuffers(data, 1, 4));
    if offsets.Failure? {
      return Failure(offsets.error);
    }
    var (offsetBuffer, valueRanges) := offsets.value;
    RangesAre(data, valueRanges);
    GatheredValues(data, valueRanges);
    var values := ConcatBytes(GatherBufferRanges(data, 2, valueRanges));
    var out := WithParts(h, [Some(offsetBuffer), Some(values)], []);
    if HeaderAssembled(data, h) {
      PartsAssembled(data, h, [Some(offsetBuffer), Some(values)], []);
    }
    if HeaderOf(data, h) {
      SameHeader(data, h, [Some(offsetBuffer), Some(values)], []);
      BinaryConcat(data, out);
    }
    r := Success(out);
  }

  lemma {:induction false} RangesAre(data: seq<Data>, ranges: seq<Rng>)
    requires HasRuns(data) && ranges == RangesOf(DataRuns(data))
    ensures |ranges| == |data| && NonNegative(ranges)
    ensures forall i :: 0 <= i < |data| ==> HasRun(data[i]) && ranges[i] == RangeOf(data[i])
  {
    hide OffsetRun;
    forall i | 0 <= i < |data|
      ensures HasRun(data[i]) && ranges[i] == RangeOf(data[i])
    {
      assert HasRun(data[i]);
    }
  }

  lemma {:induction false} RangeChildren(data: seq<Data>, ranges: seq<Rng>)
    requires HasRuns(data) && ListInputs(data) && ranges == RangesOf(DataRuns(data))
    ensures |ranges| == |data| && ChildRangesOk(data, 0, ranges)
    ensures GatherChildren(data, 0, ranges) == RangeSlices(data)
  {
    hide WellFormed, HasRun, VariableOk, RangeOf, SliceData;
    RangesAre(data, ranges);
    forall i | 0 <= i < |data|
      ensures ChildRangeOk(data[i], 0, ranges[i])
    {
      assert ListInput(data[i]);
    }
  }

  lemma {:induction false} ScaledChildren(data: seq<Data>, n: nat)
    requires FixedListInputs(data, n)
    ensures ChildRangesOk(data, 0, ScaledRanges(data, n))
    ensures GatherChildren(data, 0, ScaledRanges(data, n)) == ScaledSlices(data, n)
  {
    hide WellFormed, SliceData;
    forall i | 0 <= i < |data|
      ensures ChildRangeOk(data[i], 0, ScaledRanges(data, n)[i])
    {
      assert FixedListInput(data[i], n);
      MulMonotone(data[i].offset, data[i].offset + data[i].length, n);
    }
  }

  lemma {:induction false} FieldChildren(data: seq<Data>, f: nat)
    requires StructInputs(data, f)
    ensures ChildRangesOk(data, f, ScaledRanges(data, 1))
    ensures GatherChildren(data, f, ScaledRanges(data, 1)) == FieldSlices(data, f)
  {
    hide WellFormed, SliceData;
    forall i | 0 <= i < |data|
      ensures ChildRangeOk(data[i], f, ScaledRanges(data, 1)[i])
    {
      assert StructInput(data[i], f);
    }
  }

  method ConcatList(data: seq<Data>, h: Data) returns (r: Result<Data>)
    requires SameTyped(data) && IsVariableList(data[0].dtype) && h.dtype == data[0].dtype && |h.buffers| == 2
    requires ListInputs(data) && HasRuns(data) && SameTyped(RangeSlices(data))
    requires RangeSlices(data)[0].dtype == ElemType(data[0].dtype)
    ensures r.Success? <==> Base(DataRuns(data), |data|) <= MAX_INT32 && Concatenable(RangeSlices(data))
    ensures r.Success? && HeaderOf(data, h) && LengthsFit(RangeSlices(data)) ==> IsConcatenation(data, r.value)
    ensures r.Success? && WellFormed(r.value) ==> LengthsFit(RangeSlices(data))
    ensures r.Success? && HeaderAssembled(data, h) ==>
      HeaderAssembled(data, r.value) && |r.value.childData| == 1 && Assembled(RangeSlices(data), r.value.childData[0])
    decreases data[0].dtype, 0
  {
    hide Flatten, WellFormed, HeaderOf, IsConcatenation, HasBuffer, HasRuns, ListInputs, JoinedOffsets, Int32s, Base,
      SameTyped, Concatenable, LengthsFit, Total, DataRuns, RangeSlices, RunsOf, HeaderAssembled, Assembled;
    RunsHaveBuffers(data);
    GatheredOffsets(data);
    var offsets := ConcatOffsets(GatherFixedBuffers(data, 1, 4));
    if offsets.Failure? {
      return Failure(offsets.error);
    }
    var (offsetBuffer, valueRanges) := offsets.value;
    RangeChildren(data, valueRanges);
    var child := Concat(GatherChildren(data, 0, valueRanges));
    if child.Failure? {
      return Failure(child.error);
    }
    var out := WithParts(h, [Some(offsetBuffer)], [child.value]);
    if HeaderAssembled(data, h) {
      PartsAssembled(data, h, [Some(offsetBuffer)], [child.value]);
    }
    if HeaderOf(data, h) && LengthsFit(RangeSlices(data)) {
      SameHeader(data, h, [Some(offsetBuffer)], [child.value]);
      ListConcat(data, out);
    }
    RangeTotal(data, |data|);
    if WellFormed(out) {
      WellFormedChild(out, 0);
    }
    r := Success(out);
  }

  method ConcatFixedList(data: seq<Data>, h: Data, n: nat) returns (r: Result<Data>)
    requires SameTyped(data) && data[0].dtype.FixedSizeListType? && data[0].dtype.n == n
      && h.dtype == data[0].dtype && |h.buffers| == 1
    requires FixedListInputs(data, n) && SameTyped(ScaledSlices(data, n))
    requires ScaledSlices(data, n)[0].dtype == data[0].dtype.elem
    ensures r.Success? <==> Concatenable(ScaledSlices(data, n))
    ensures r.Success? && HeaderOf(data, h) && LengthsFit(ScaledSlices(data, n)) ==> IsConcatenation(data, r.value)
    ensures r.Success? && HeaderOf(data, h) && WellFormed(r.value) ==> LengthsFit(ScaledSlices(data, n))
    ensures r.Success? && HeaderAssembled(data, h) ==>
      && HeaderAssembled(data, r.value) && |r.value.childData| == 1
      && Assembled(ScaledSlices(data, n), r.value.childData[0])
    decreases data[0].dtype, 0
  {
    hide WellFormed, HeaderOf, IsConcatenation, FixedListInputs, SameTyped, Concatenable, LengthsFit, HeaderAssembled,
      Assembled;
    ScaledChildren(data, n);
    var child := Concat(GatherChildren(data, 0, ScaledRanges(data, n)));
    if child.Failure? {
      return Failure(child.error);
    }
    var out := WithParts(h, [], [child.value]);
    if HeaderAssembled(data, h) {
      PartsAssembled(data, h, [], [child.value]);
    }
    if HeaderOf(data, h) && LengthsFit(ScaledSlices(data, n)) {
      SameHeader(data, h, [], [child.value]);
      FixedListConcat(data, out);
    }
    if HeaderOf(data, h) && WellFormed(out) {
      SameHeader(data, h, [], [child.value]);
      FixedListFits(data, out, n);
    }
    r := Success(out);
  }

  ghost predicate FieldsOk(data: seq<Data>, fields: seq<DataType>) {
    forall f :: 0 <= f < |fields| ==>
      StructInputs(data, f) && SameTyped(FieldSlices(data, f)) && FieldSlices(data, f)[0].dtype == fields[f]
  }

  ghost predicate FieldsAssembled(data: seq<Data>, childData: seq<Data>, n: nat) {
    && n <= |childData|
    && forall f :: 0 <= f < n ==>
      StructInputs(data, f) && SameTyped(FieldSlices(data, f)) && Assembled(FieldSlices(data, f), childData[f])
  }

  method ConcatStruct(data: seq<Data>, h: Data, fields: seq<DataType>) returns (r: Result<Data>)
    requires SameTyped(data) && data[0].dtype == StructType(fields) && h.dtype == data[0].dtype && |h.buffers| == 1
    requires FieldsOk(data, fields)
    ensures r.Success? <==> forall f :: 0 <= f < |fields| ==> Concatenable(FieldSlices(data, f))
    ensures r.Success? && HeaderOf(data, h) && (forall f :: 0 <= f < |fields| ==> LengthsFit(FieldSlices(data, f))) ==>
              IsConcatenation(data, r.value)
    ensures r.Success? && Total(data, |data|) <= MAX_INT && WellFormed(r.value) ==> forall f :: 0 <= f < |fields| ==>
      LengthsFit(FieldSlices(data, f))
    ensures r.Success? && HeaderAssembled(data, h) ==> HeaderAssembled(data, r.value) && |r.value.childData| == |fields|
    ensures r.Success? ==> FieldsAssembled(data, r.value.childData, |fields|)
    decreases data[0].dtype, 0
  {
    hide WellFormed, HeaderOf, IsConcatenation, StructInputs, SameTyped, Concatenable, LengthsFit, Total,
      HeaderAssembled,
      Assembled;
    var childData: seq<Data> := [];
    for i := 0 to |fields|
      invariant |childData| == i && FieldsAssembled(data, childData, i)
      invariant forall f :: 0 <= f < i ==> Concatenable(FieldSlices(data, f))
      invariant forall f :: 0 <= f < i && LengthsFit(FieldSlices(data, f)) ==>
        IsConcatenation(FieldSlices(data, f), childData[f])
      invariant forall f :: 0 <= f < i && Total(data, |data|) <= MAX_INT && WellFormed(childData[f]) ==>
        LengthsFit(FieldSlices(data, f))
    {
      FieldChildren(data, i);
      var child := Concat(GatherChildren(data, i, ScaledRanges(data, 1)));
      if child.Failure? {
        return Failure(child.error);
      }
      FieldTotal(data, i, |data|);
      childData := childData + [child.value];
    }
    var out := WithParts(h, [], childData);
    if HeaderAssembled(data, h) {
      PartsAssembled(data, h, [], childData);
    }
    if HeaderOf(data, h) && forall f :: 0 <= f < |fields| ==> LengthsFit(FieldSlices(data, f)) {
      SameHeader(data, h, [], childData);
      StructConcat(data, out);
    }
    if WellFormed(out) {
      forall f | 0 <= f < |fields|
        ensures WellFormed(childData[f])
      {
        WellFormedChild(out, f);
      }
    }
    r := Success(out);
  }

  lemma {:induction false} WellFormedChild(d: Data, k: nat)
    requires WellFormed(d) && k < |d.childData|
    ensures WellFormed(d.childData[k])
  {
    hide LayoutOk, NullsOk, ValidityOk;
  }

  /** A fixed-size list array that is well-formed has a child as long as all its slots need. */
  lemma {:induction false} FixedListFits(data: seq<Data>, out: Data, n: nat)
    requires SameTyped(data) && HeaderOf(data, out) && WellFormed(out) && out.dtype.FixedSizeListType?
    requires out.dtype.n == n
    requires FixedListInputs(data, n)
    ensures |out.childData| == 1 && WellFormed(out.childData[0])
    ensures Total(ScaledSlices(data, n), |data|) <= MAX_INT
  {
    hide NullsOf, BitRange, Flatten, Total, Validities, NullsOk;
    ScaledTotal(data, n, |data|);
    WellFormedChild(out, 0);
    assert ValidityOk(out.childData[0]);
  }

  /** A concatenation has the length of its inputs, which fits an int like every length. */
  lemma {:induction false} ConcatenationFits(data: seq<Data>, out: Data)
    requires SameTyped(data) && IsConcatenation(data, out)
    ensures Total(data, |data|) <= MAX_INT && WellFormed(out)
  {
    hide Flatten, LayoutOk, NullsOk, Total, Meaning;
    JoinedLength(data, out);
  }

  /**
   concat: it succeeds exactly on the inputs that fit, and then the result means
   the meanings of the inputs end to end exactly when the lengths fit an int.
   */
  method Concat(data: seq<Data>) returns (r: Result<Data>)
    requires SameTyped(data)
    ensures r.Success? <==> Concatenable(data)
    ensures r.Success? && LengthsFit(data) ==> IsConcatenation(data, r.value)
    ensures r.Success? && Total(data, |data|) <= MAX_INT && WellFormed(r.value) ==> LengthsFit(data)
    ensures r.Success? ==> Assembled(data, r.value)
    decreases data[0].dtype, 1
  {
    hide WellFormed, HeaderOf, IsConcatenation, Base, HasRuns, BinaryInputs, ListInputs, FixedListInputs, StructInputs,
      HeaderAssembled;
    var header := ConcatHeader(data);
    if header.Failure? {
      return Failure(header.error);
    }
    var h := header.value;
    match data[0].dtype {
      case NullType =>
        if HeaderOf(data, h) {
          NullConcat(data, h);
        }
        r := Success(h);
      case BooleanType =>
        r := ConcatBoolean(data, h);
      case FixedWidthType(w) =>
        var out := ConcatFixedWidth(data, h, w);
        r := Success(out);
      case BinaryType =>
        BinaryInputsOk(data);
        r := ConcatBinary(data, h);
      case ListType(_) | MapType(_) =>
        ListInputsOk(data);
        RangeSlicesTyped(data);
        r := ConcatList(data, h);
      case FixedSizeListType(n, _) =>
        FixedListInputsOk(data);
        r := ConcatFixedList(data, h, n);
      case StructType(fields) =>
        forall f | 0 <= f < |fields|
          ensures StructInputs(data, f) && SameTyped(FieldSlices(data, f)) && FieldSlices(data, f)[0].dtype == fields[f]
        {
          StructInputsOk(data, f);
        }
        r := ConcatStruct(data, h, fields);
      case OtherType(_) =>
        r := Failure("concatenate not implemented for type");
    }
  }

  // ---------------------------------------------------------------- arrays of the result

  ghost predicate AllConstructible(data: seq<Data>) {
    forall i :: 0 <= i < |data| ==> Constructible(data[i])
  }

  lemma {:induction false} NoNulls(data: seq<Data>, k: nat)
    requires k <= |data| && forall i :: 0 <= i < |data| ==> data[i].nulls == 0
    ensures NullsOf(data, k) == 0
  {
    if k > 0 {
      NoNulls(data, k - 1);
    }
  }

  lemma {:induction false} RangeConstructible(data: seq<Data>)
    requires SameTyped(data) && AllConstructible(data) && ListInputs(data)
    ensures AllConstructible(RangeSlices(data))
  {
    hide WellFormed, HasRun, RangeOf, SliceData;
    forall i | 0 <= i < |data|
      ensures Constructible(RangeSlices(data)[i])
    {
      assert ListInput(data[i]) && Constructible(data[i].childData[0]);
      SliceConstructible(data[i].childData[0], RangeOf(data[i]).offset, RangeOf(data[i]).offset + RangeOf(data[i]).len);
    }
  }

  lemma {:induction false} ScaledConstructible(data: seq<Data>, n: nat)
    requires AllConstructible(data) && FixedListInputs(data, n)
    ensures AllConstructible(ScaledSlices(data, n))
  {
    hide WellFormed, SliceData;
    forall i | 0 <= i < |data|
      ensures Constructible(ScaledSlices(data, n)[i])
    {
      var d := data[i];
      assert FixedListInput(d, n) && Constructible(d.childData[0]);
      MulMonotone(d.offset, d.offset + d.length, n);
      SliceConstructible(d.childData[0], d.offset * n, (d.offset + d.length) * n);
    }
  }

  lemma {:induction false} FieldConstructible(data: seq<Data>, f: nat)
    requires AllConstructible(data) && StructInputs(data, f)
    ensures AllConstructible(FieldSlices(data, f))
  {
    hide WellFormed, SliceData;
    forall i | 0 <= i < |data|
      ensures Constructible(FieldSlices(data, f)[i])
    {
      var d := data[i];
      assert StructInput(d, f) && Constructible(d.childData[f]);
      SliceConstructible(d.childData[f], d.offset, d.offset + d.length);
    }
  }

  /** The entries and the keys of the map inputs have no nulls, so neither have those of the result. */
  lemma {:induction false} MapEntries(data: seq<Data>, out: Data)
    requires SameTyped(data) && AllConstructible(data) && data[0].dtype.MapType? && Assembled(data, out)
    ensures |out.childData| == 1 && out.childData[0].dtype.StructType? && out.childData[0].nulls == 0
    ensures |out.childData[0].childData| == 2 && out.childData[0].childData[0].nulls == 0
  {
    hide WellFormed, HasRun, RangeOf;
    ListInputsOk(data);
    RangeSlicesTyped(data);
    var slices := RangeSlices(data);
    forall i | 0 <= i < |data|
      ensures slices[i].nulls == 0 && slices[i].dtype.StructType? && |slices[i].childData| == 2
        && slices[i].childData[0].nulls == 0
    {
      assert ListInput(data[i]) && Constructible(data[i]);
    }
    NoNulls(slices, |slices|);
    EntryFields(slices, out.childData[0]);
  }

  lemma {:induction false} EntryFields(slices: seq<Data>, out: Data)
    requires SameTyped(slices) && slices[0].dtype.StructType? && Assembled(slices, out)
    requires forall i :: 0 <= i < |slices| ==> |slices[i].childData| == 2 && slices[i].childData[0].nulls == 0
    ensures |out.childData| == 2 && out.childData[0].nulls == 0
  {
    hide NullsOk, ValidityOk, NullsOf;
    assert WellFormed(slices[0]);
    StructInputsOk(slices, 0);
    var keys := FieldSlices(slices, 0);
    assert Assembled(keys, out.childData[0]);
    forall i | 0 <= i < |keys|
      ensures keys[i].nulls == 0
    {
    }
    NoNulls(keys, |keys|);
  }

  lemma {:induction false} HeaderConstructible(data: seq<Data>, out: Data)
    requires SameTyped(data) && HeaderAssembled(data, out) && !data[0].dtype.OtherType?
    ensures |out.buffers| > 0 && out.dtype == data[0].dtype
    ensures out.nulls == UNKNOWN_NULL_COUNT ==> out.dtype.NullType? || out.buffers[0].Some?
  {
    hide NullsOf, WellFormed;
  }

  lemma {:induction false} ListConstructible(data: seq<Data>, out: Data)
    requires SameTyped(data) && AllConstructible(data) && Assembled(data, out) && IsVariableList(data[0].dtype)
    ensures |out.childData| == 1 && Constructible(out.childData[0])
    decreases data[0].dtype, 0
  {
    hide WellFormed, HeaderAssembled, HasRun, RangeOf, Constructible;
    ListInputsOk(data);
    RangeSlicesTyped(data);
    RangeConstructible(data);
    AssembledConstructible(RangeSlices(data), out.childData[0]);
  }

  lemma {:induction false} FieldsConstructible(data: seq<Data>, out: Data, f: nat)
    requires SameTyped(data) && AllConstructible(data) && Assembled(data, out) && data[0].dtype.StructType?
    requires f < |data[0].dtype.fields|
    ensures |out.childData| == |data[0].dtype.fields| && Constructible(out.childData[f])
    decreases data[0].dtype, 0
  {
    hide WellFormed, HeaderAssembled, Constructible;
    StructInputsOk(data, f);
    FieldConstructible(data, f);
    AssembledConstructible(FieldSlices(data, f), out.childData[f]);
  }

  /** MakeFromData accepts what is assembled from arrays. */
  lemma {:induction false} AssembledConstructible(data: seq<Data>, out: Data)
    requires SameTyped(data) && AllConstructible(data) && Assembled(data, out)
    ensures Constructible(out)
    decreases data[0].dtype, 1
  {
    hide WellFormed, HeaderAssembled, HasRun, RangeOf, AllConstructible;
    HeaderConstructible(data, out);
    match data[0].dtype {
      case ListType(_) => ListConstructible(data, out);
      case MapType(_) =>
        ListConstructible(data, out);
        MapEntries(data, out);
      case FixedSizeListType(n, _) =>
        FixedListInputsOk(data);
        ScaledConstructible(data, n);
        AssembledConstructible(ScaledSlices(data, n), out.childData[0]);
      case StructType(fields) =>
        forall f | 0 <= f < |fields|
          ensures |out.childData| == |fields| && Constructible(out.childData[f])
        {
          FieldsConstructible(data, out, f);
        }
      case _ =>
    }
  }

  /** Concatenate: also refuses an empty list and arrays of different types. */
  method Concatenate(arrs: seq<Data>) returns (r: Result<Data>)
    requires forall i :: 0 <= i < |arrs| ==> WellFormed(arrs[i])
    ensures r.Success? <==> SameTyped(arrs) && Concatenable(arrs)
    ensures r.Success? ==> (IsConcatenation(arrs, r.value) <==> LengthsFit(arrs))
    ensures r.Success? ==> Assembled(arrs, r.value)
    ensures r.Success? && AllConstructible(arrs) ==> Constructible(r.value)
  {
    hide WellFormed, Constructible, IsConcatenation, Concatenable, LengthsFit, Assembled;
    if |arrs| == 0 {
      return Failure("must pass at least one array");
    }
    for i := 0 to |arrs|
      invariant forall k :: 0 <= k < i ==> arrs[k].dtype == arrs[0].dtype
    {
      if arrs[i].dtype != arrs[0].dtype {
        return Failure("arrays to be concatenated must be identically typed");
      }
    }
    r := Concat(arrs);
    if r.Success? && AllConstructible(arrs) {
      AssembledConstructible(arrs, r.value);
    }
    if r.Success? && IsConcatenation(arrs, r.value) {
      ConcatenationFits(arrs, r.value);
    }
  }

  /** As many nulls as an int can count; their length is all there is to them. */
  function ManyNulls(): Data {
    Data(NullType, UNKNOWN_NULL_COUNT, 0, MAX_INT, [None], [])
  }

  /** Two such arrays are concatenated without an error, although their lengths do not add up within an int. */
  lemma {:induction false} WrappedLengths()
    ensures SameTyped([ManyNulls(), ManyNulls()])
    ensures Concatenable([ManyNulls(), ManyNulls()]) && !LengthsFit([ManyNulls(), ManyNulls()])
  {
    hide Count;
    var data := [ManyNulls(), ManyNulls()];
    assert ValidityOk(ManyNulls()) && LayoutOk(ManyNulls());
    assert Total(data, 1) == Total(data, 0) + MAX_INT;
    assert Total(data, 2) == Total(data, 1) + MAX_INT;
  }
}
