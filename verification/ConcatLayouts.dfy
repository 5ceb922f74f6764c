/** Each layout joined buffer by buffer means what its inputs mean end to end. */
module ConcatLayouts {
  import opened Bits
  import opened Bitmaps
  import opened BitUtil
  import opened Int32View
  import opened Seqs
  import opened Wrappers
  import opened ArrayData
  import opened ConcatBuffers
  import opened ConcatSpec

  /** A header and a layout that fit together make the whole well-formed. */
  lemma {:induction false} HeaderWellFormed(data: seq<Data>, out: Data)
    requires SameTyped(data) && HeaderOf(data, out) && LayoutOk(out)
    requires forall k :: 0 <= k < |out.childData| ==> WellFormed(out.childData[k])
    ensures WellFormed(out)
  {
    hide HeaderOf, LayoutOk, NullsOk, ValidityOk;
    HeaderValidity(data, out);
  }

  /** Where slot j of input i is in the joined array. */
  lemma {:induction false} SlotPlace(data: seq<Data>, i: nat, j: nat)
    requires SameTyped(data) && i < |data| && j < data[i].length
    ensures 0 <= Total(data, i) && Total(data, i) + j < Total(data, i + 1) <= Total(data, |data|)
  {
    hide WellFormed;
    TotalMonotone(data, 0, i);
    TotalMonotone(data, i + 1, |data|);
  }

  /** The joined array is valid exactly where the inputs are. */
  lemma {:induction false} ValidPlace(data: seq<Data>, out: Data, i: nat, j: nat)
    requires SameTyped(data) && HeaderOf(data, out) && ValidityOk(out)
    requires i < |data| && j < data[i].length && WellFormed(data[i])
    ensures 0 <= Total(data, i) + j < out.length && ValidBits(out)[Total(data, i) + j] == ValidBits(data[i])[j]
  {
    hide Flatten, NullsOf, BitRange, WellFormed, ValidBits;
    HeaderValidity(data, out);
    SlotPlace(data, i, j);
    StartIsTotal(data, Validities(data), i);
    FlattenAt(Validities(data), i, j);
  }

  // ---------------------------------------------------------------- null

  lemma {:induction false} NullConcat(data: seq<Data>, out: Data)
    requires SameTyped(data) && HeaderOf(data, out) && out.dtype.NullType? && out.childData == []
    ensures IsConcatenation(data, out)
  {
    hide Flatten, NullsOf;
    HeaderWellFormed(data, out);
    NoValidSlots(data, out);
    JoinedMeaning(data, out);
  }

  lemma {:induction false} NoValidSlots(data: seq<Data>, out: Data)
    requires SameTyped(data) && WellFormed(out) && data[0].dtype.NullType?
    ensures SlotsAgree(data, out)
  {
    forall i: nat, j: nat
      ensures SlotAgrees(data, out, i, j)
    {
      if i < |data| {
        assert WellFormed(data[i]) && data[i].dtype.NullType?;
      }
    }
  }

  // ---------------------------------------------------------------- boolean

  ghost predicate RangesOk(bitmaps: seq<BitmapRange>) {
    forall i :: 0 <= i < |bitmaps| ==> BitmapRangeOk(bitmaps[i])
  }

  lemma {:induction false} BooleanRangesOk(data: seq<Data>)
    requires SameTyped(data) && data[0].dtype.BooleanType?
    ensures forall i :: 0 <= i < |data| ==> |data[i].buffers| == 2
    ensures RangesOk(GatherBitmaps(data, 1))
  {
    forall i | 0 <= i < |data|
      ensures |data[i].buffers| == 2 && BitmapRangeOk(BitmapRange(data[i].buffers[1], Rng(data[i].offset,
        data[i].length)))
    {
      assert WellFormed(data[i]);
    }
  }

  lemma {:induction false} ValidityRangesOk(data: seq<Data>)
    requires SameTyped(data)
    ensures forall i :: 0 <= i < |data| ==> |data[i].buffers| > 0
    ensures !data[0].dtype.NullType? ==>
      RangesOk(GatherBitmaps(data, 0)) && AllRangeBits(GatherBitmaps(data, 0)) == Validities(data)
  {
    hide BitRange;
    forall i | 0 <= i < |data|
      ensures |data[i].buffers| > 0
      ensures !data[0].dtype.NullType? ==> BitmapRangeOk(BitmapRange(data[i].buffers[0], Rng(data[i].offset,
        data[i].length)))
    {
      assert WellFormed(data[i]);
    }
  }

  ghost predicate BooleanOf(data: seq<Data>, out: Data)
    requires SameTyped(data)
  {
    && out.dtype.BooleanType? && HeaderOf(data, out) && out.childData == []
    && out.buffers[1].Some? && InRange(out.buffers[1].value, 0, out.length)
    && (forall i :: 0 <= i < |data| ==> |data[i].buffers| == 2)
    && RangesOk(GatherBitmaps(data, 1))
    && BitRange(out.buffers[1].value, 0, out.length) == Flatten(AllRangeBits(GatherBitmaps(data, 1)))
  }

  lemma {:induction false} BooleanBit(data: seq<Data>, i: nat, j: nat, bits: seq<byte>, n: nat)
    requires SameTyped(data) && i < |data| && j < data[i].length
    requires forall k :: 0 <= k < |data| ==> |data[k].buffers| == 2
    requires RangesOk(GatherBitmaps(data, 1)) && InRange(bits, 0, n)
    requires BitRange(bits, 0, n) == Flatten(AllRangeBits(GatherBitmaps(data, 1)))
    requires data[i].buffers[1].Some? && InRange(data[i].buffers[1].value, data[i].offset, data[i].length)
    ensures 0 <= Total(data, i) + j < n
    ensures BitAt(bits, Total(data, i) + j) == BitAt(data[i].buffers[1].value, data[i].offset + j)
  {
    hide Flatten, BitAt, BitRange, Start, Total, WellFormed, AllRangeBits;
    var pieces := AllRangeBits(GatherBitmaps(data, 1));
    SlotPlace(data, i, j);
    StartIsTotal(data, pieces, i);
    FlattenAt(pieces, i, j);
    RangeAt(bits, 0, n, Total(data, i) + j);
    RangeBitsOf(GatherBitmaps(data, 1), i);
    RangeAt(data[i].buffers[1].value, data[i].offset, data[i].length, j);
  }

  lemma {:induction false} RangeAt(s: seq<byte>, from: nat, n: nat, k: nat)
    requires InRange(s, from, n) && k < n
    ensures BitRange(s, from, n)[k] == BitAt(s, from + k)
  {
    hide BitAt;
  }

  lemma {:induction false} BooleanSlot(data: seq<Data>, out: Data, i: nat, j: nat)
    requires SameTyped(data) && BooleanOf(data, out)
    requires WellFormed(out)
    ensures SlotAgrees(data, out, i, j)
  {
    hide Flatten, NullsOf, ValidBits, BitAt, BitRange, Total, HeaderOf, ValidityOk, NullsOk;
    if i < |data| && j < data[i].length && ValidBits(data[i])[j] {
      ValidPlace(data, out, i, j);
      HeaderOffset(data, out);
      BooleanBit(data, i, j, out.buffers[1].value, out.length);
    }
  }

  lemma {:induction false} BooleanConcat(data: seq<Data>, out: Data)
    requires SameTyped(data) && BooleanOf(data, out)
    ensures IsConcatenation(data, out)
  {
    HeaderWellFormed(data, out);
    forall i: nat, j: nat
      ensures SlotAgrees(data, out, i, j)
    {
      hide *;
      BooleanSlot(data, out, i, j);
    }
    JoinedMeaning(data, out);
  }

  // ---------------------------------------------------------------- fixed width

  /** The bytes of the slots of one input; none for a nil buffer. */
  ghost function FixedPiece(d: Data, w: nat): (r: seq<byte>)
    requires FixedWidthOk(d, w)
    ensures |r| == w * d.length
  {
    if d.buffers[1].None? then [] else
      assert (d.offset + d.length) * w == d.offset * w + d.length * w;
      d.buffers[1].value[d.offset * w..(d.offset + d.length) * w]
  }

  ghost function FixedPieces(data: seq<Data>, w: nat): (r: seq<seq<byte>>)
    requires forall i :: 0 <= i < |data| ==> FixedWidthOk(data[i], w)
    ensures |r| == |data| && forall i :: 0 <= i < |r| ==> |r[i]| == w * data[i].length
  {
    seq(|data|, i requires 0 <= i < |data| && FixedWidthOk(data[i], w) => FixedPiece(data[i], w))
  }

  lemma {:induction false} FixedInputs(data: seq<Data>, w: nat)
    requires SameTyped(data) && data[0].dtype == FixedWidthType(w)
    ensures forall i :: 0 <= i < |data| ==> FixedWidthOk(data[i], w)
  {
    forall i | 0 <= i < |data|
      ensures FixedWidthOk(data[i], w)
    {
      assert WellFormed(data[i]);
    }
  }

  ghost predicate FixedOf(data: seq<Data>, out: Data, w: nat)
    requires SameTyped(data)
  {
    && out.dtype == FixedWidthType(w) && HeaderOf(data, out) && out.childData == []
    && (forall i :: 0 <= i < |data| ==> FixedWidthOk(data[i], w))
    && out.buffers[1] == Some(Flatten(FixedPieces(data, w)))
  }

  lemma {:induction false} FixedStart(data: seq<Data>, w: nat, k: nat)
    requires k <= |data| && forall i :: 0 <= i < |data| ==> FixedWidthOk(data[i], w)
    requires SameTyped(data)
    ensures 0 <= Total(data, k) && Start(FixedPieces(data, w), k) == w * Total(data, k)
  {
    hide FixedWidthOk, Start, WellFormed;
    TotalMonotone(data, 0, k);
    StartIsTotal(data, Validities(data), k);
    ScaledStarts(Validities(data), FixedPieces(data, w), w, k);
  }

  /** The bytes of slot j of input i, found in the joined bytes. */
  lemma {:induction false} FixedBytes(data: seq<Data>, w: nat, i: nat, j: nat, b: seq<byte>)
    requires SameTyped(data) && i < |data| && j < data[i].length
    requires forall i :: 0 <= i < |data| ==> FixedWidthOk(data[i], w)
    requires b == Flatten(FixedPieces(data, w))
    ensures 0 <= (Total(data, i) + j) * w && (Total(data, i) + j) * w + w <= |b|
    ensures b[(Total(data, i) + j) * w..(Total(data, i) + j) * w + w] == FixedWidthSlot(data[i], w, j)
  {
    hide *;
    var pieces := FixedPieces(data, w);
    FixedStart(data, w, i);
    FlattenPiece(pieces, i);
    PieceOf(data, w, i);
    FixedSlice(data[i], w, j);
    var t := Total(data, i);
    assert (t + j) * w == w * t + j * w;
    RangeOfRange(b, w * t, w * data[i].length, j * w, w);
  }

  lemma {:induction false} PieceOf(data: seq<Data>, w: nat, i: nat)
    requires i < |data| && forall i :: 0 <= i < |data| ==> FixedWidthOk(data[i], w)
    ensures FixedPieces(data, w)[i] == FixedPiece(data[i], w)
  {
  }

  lemma {:induction false} FixedSlot(data: seq<Data>, out: Data, w: nat, i: nat, j: nat)
    requires SameTyped(data) && FixedOf(data, out, w)
    requires WellFormed(out)
    ensures SlotAgrees(data, out, i, j)
  {
    hide Flatten, FixedPieces, NullsOf, ValidBits, Total, HeaderOf, FixedWidthOk, ValidityOk, NullsOk;
    if i < |data| && j < data[i].length && ValidBits(data[i])[j] {
      ValidPlace(data, out, i, j);
      FixedBytes(data, w, i, j, out.buffers[1].value);
      HeaderOffset(data, out);
      FixedSlotAt(out, w, Total(data, i) + j);
      assert data[i].dtype == FixedWidthType(w);
    }
  }

  lemma {:induction false} FixedSlotAt(out: Data, w: nat, m: nat)
    requires FixedWidthOk(out, w) && out.buffers[1].Some? && out.offset == 0 && m < out.length
    ensures 0 <= m * w && m * w + w <= |out.buffers[1].value|
    ensures FixedWidthSlot(out, w, m) == out.buffers[1].value[m * w..m * w + w]
  {
    WidthInRange(0, out.length, m, w);
    assert (out.offset + m) * w == m * w;
  }

  lemma {:induction false} HeaderOffset(data: seq<Data>, out: Data)
    requires SameTyped(data) && HeaderOf(data, out)
    ensures out.offset == 0 && 0 <= out.length == Total(data, |data|) && out.dtype == data[0].dtype
    ensures |out.buffers| == BufferCount(out.dtype)
  {
    hide Flatten, NullsOf, BitRange, Total;
  }

  lemma {:induction false} FixedSlice(d: Data, w: nat, j: nat)
    requires FixedWidthOk(d, w) && j < d.length
    ensures 0 <= j * w && j * w + w <= w * d.length
    ensures FixedWidthSlot(d, w, j) == FixedPiece(d, w)[j * w..j * w + w]
  {
    WidthInRange(0, d.length, j, w);
    WidthInRange(d.offset, d.length, j, w);
    assert (d.offset + j) * w == d.offset * w + j * w;
    assert (d.offset + d.length) * w == d.offset * w + w * d.length;
    if d.buffers[1].Some? {
      RangeOfRange(d.buffers[1].value, d.offset * w, w * d.length, j * w, w);
    } else {
      assert w == 0;
    }
  }

  lemma {:induction false} FixedConcat(data: seq<Data>, out: Data, w: nat)
    requires SameTyped(data) && FixedOf(data, out, w)
    ensures IsConcatenation(data, out)
  {
    FixedLayout(data, out, w);
    HeaderWellFormed(data, out);
    forall i: nat, j: nat
      ensures SlotAgrees(data, out, i, j)
    {
      hide *;
      FixedSlot(data, out, w, i, j);
    }
    JoinedMeaning(data, out);
  }

  lemma {:induction false} FixedLayout(data: seq<Data>, out: Data, w: nat)
    requires SameTyped(data) && FixedOf(data, out, w)
    ensures LayoutOk(out)
  {
    hide Flatten, FixedPieces, HeaderOf, Total;
    HeaderOffset(data, out);
    FixedStart(data, w, |data|);
    FlattenLength(FixedPieces(data, w));
  }

  // ---------------------------------------------------------------- variable-size offsets

  /** The offsets of the slots of one input, the one past the end included. */
  ghost function OffsetRun(d: Data): Run
    requires |d.buffers| > 1 && 0 <= d.offset && 0 <= d.length
    requires (d.length > 0 ==> d.offset + d.length < |OffsetsOf(d)|)
  {
    if d.length == 0 then [] else OffsetsOf(d)[d.offset..d.offset + d.length + 1]
  }

  ghost predicate HasRun(d: Data) {
    && |d.buffers| > 1 && 0 <= d.offset && 0 <= d.length
    && d.buffers[1].Some? && 4 * d.offset <= |d.buffers[1].value|
    && (d.length > 0 ==> d.offset + d.length < |OffsetsOf(d)|)
    && RunOk(OffsetRun(d)) && SlotCount(OffsetRun(d)) == d.length
  }

  ghost predicate HasRuns(data: seq<Data>) {
    forall i :: 0 <= i < |data| ==> HasRun(data[i])
  }

  ghost function DataRuns(data: seq<Data>): (r: seq<Run>)
    requires HasRuns(data)
    ensures |r| == |data| && RunsOk(r)
    ensures forall i :: 0 <= i < |r| ==> r[i] == OffsetRun(data[i])
  {
    seq(|data|, i requires 0 <= i < |data| && HasRun(data[i]) => OffsetRun(data[i]))
  }

  /** The range of values that the slots of one input span. */
  ghost function RangeOf(d: Data): (r: Rng)
    requires HasRun(d)
    ensures 0 <= r.offset && 0 <= r.len
  {
    assert RunOk(OffsetRun(d));
    RunRange(OffsetRun(d))
  }

  lemma {:induction false} VariableRun(d: Data, bound: int)
    requires VariableOk(d, bound) && 0 <= bound
    ensures HasRun(d)
    ensures RangeOf(d).offset + RangeOf(d).len <= bound
  {
    hide Int32s;
    if d.length > 0 {
      var offs, run := OffsetsOf(d), OffsetRun(d);
      forall i | 0 <= i < |run|
        ensures run[i] == offs[d.offset + i] && 0 <= run[i] <= bound
      {
      }
    }
  }

  ghost predicate VariableOf(data: seq<Data>, out: Data)
    requires SameTyped(data) && HasRuns(data)
  {
    && HeaderOf(data, out) && |out.buffers| > 1 && out.buffers[1].Some?
    && Int32s(out.buffers[1].value) == JoinedOffsets(DataRuns(data))
  }

  lemma {:induction false} RunStart(data: seq<Data>, k: nat)
    requires HasRuns(data) && k <= |data|
    ensures Start(RebasedRuns(DataRuns(data)), k) == Total(data, k)
  {
    StartIsTotal(data, RebasedRuns(DataRuns(data)), k);
  }

  lemma {:induction false} VariableLayout(data: seq<Data>, out: Data)
    requires SameTyped(data) && HasRuns(data) && VariableOf(data, out)
    ensures VariableOk(out, Base(DataRuns(data), |data|))
  {
    hide Int32s, JoinedOffsets, RebasedRuns, Total, HeaderOf, HasRuns, RunsOk;
    HeaderOffset(data, out);
    RunStart(data, |data|);
    JoinedOffsetsOk(DataRuns(data));
  }

  lemma {:induction false} RunIn(data: seq<Data>, i: nat)
    requires HasRuns(data) && i < |data|
    ensures HasRun(data[i]) && |DataRuns(data)| == |data| && DataRuns(data)[i] == OffsetRun(data[i])
  {
    hide HasRun, OffsetRun;
  }

  /** Where the joined offsets place slot k. */
  lemma {:induction false} JoinedRange(data: seq<Data>, out: Data, bound: int, k: nat)
    requires SameTyped(data) && HasRuns(data) && VariableOf(data, out) && VariableOk(out, bound) && k < out.length
      && out.offset == 0
    ensures k + 1 < |JoinedOffsets(DataRuns(data))|
    ensures ValueRange(out, k, bound) == (JoinedOffsets(DataRuns(data))[k], JoinedOffsets(DataRuns(data))[k + 1])
  {
    hide Int32s, JoinedOffsets, HeaderOf, HasRuns, DataRuns, SameTyped;
  }

  /** Slot j of input i spans the same values as before, moved to the base of its input. */
  lemma {:induction false} VariablePlace(data: seq<Data>, out: Data, bound: int, i: nat, j: nat, bound': int)
    requires SameTyped(data) && HasRuns(data) && VariableOf(data, out) && VariableOk(out, bound)
    requires i < |data| && j < data[i].length && VariableOk(data[i], bound')
    ensures 0 <= Total(data, i) + j < out.length
    ensures var (b, e) := ValueRange(out, Total(data, i) + j, bound);
            var (b', e') := ValueRange(data[i], j, bound');
            var r := RangeOf(data[i]);
            && r.offset <= b' <= e' <= r.offset + r.len
            && b == Base(DataRuns(data), i) + b' - r.offset && e == Base(DataRuns(data), i) + e' - r.offset
  {
    hide Int32s, JoinedOffsets, RebasedRuns, Total, HeaderOf, HasRuns, RunsOk, Base, VariableOk, ValueRange, RangeOf,
      OffsetRun;
    HeaderOffset(data, out);
    SlotPlace(data, i, j);
    RunStart(data, i);
    JoinedRange(data, out, bound, Total(data, i) + j);
    RunIn(data, i);
    SlotRange(data[i], bound', j);
    JoinedOffsetAt(DataRuns(data), i, j);
    JoinedOffsetAt(DataRuns(data), i, j + 1);
  }

  lemma {:induction false} SlotRange(d: Data, bound: int, j: nat)
    requires VariableOk(d, bound) && j < d.length && HasRun(d)
    ensures ValueRange(d, j, bound) == (OffsetRun(d)[j], OffsetRun(d)[j + 1])
    ensures OffsetRun(d) != [] && RangeOf(d).offset == OffsetRun(d)[0]
    ensures OffsetRun(d)[0] <= OffsetRun(d)[j] <= OffsetRun(d)[j + 1] <= RangeOf(d).offset + RangeOf(d).len
  {
    hide Int32s;
    assert RunOk(OffsetRun(d));
  }

  // ---------------------------------------------------------------- binary

  ghost predicate BinaryInput(d: Data) {
    |d.buffers| == 3 && VariableOk(d, |BytesOrEmpty(d.buffers[2])|) && HasRun(d)
  }

  ghost predicate BinaryInputs(data: seq<Data>) {
    forall i :: 0 <= i < |data| ==> BinaryInput(data[i])
  }

  lemma {:induction false} BinaryInputsOk(data: seq<Data>)
    requires SameTyped(data) && data[0].dtype.BinaryType?
    ensures BinaryInputs(data) && HasRuns(data)
  {
    hide HasRun, OffsetsOk;
    forall i | 0 <= i < |data|
      ensures BinaryInput(data[i])
    {
      assert WellFormed(data[i]);
      VariableRun(data[i], |BytesOrEmpty(data[i].buffers[2])|);
    }
  }

  /** The value bytes that the slots of one input span. */
  ghost function ValuePiece(d: Data): (r: seq<byte>)
    requires BinaryInput(d)
    ensures |r| == RangeOf(d).len
  {
    VariableRun(d, |BytesOrEmpty(d.buffers[2])|);
    BytesOrEmpty(d.buffers[2])[RangeOf(d).offset..RangeOf(d).offset + RangeOf(d).len]
  }

  ghost function ValuePieces(data: seq<Data>): (r: seq<seq<byte>>)
    requires BinaryInputs(data)
    ensures |r| == |data| && forall i :: 0 <= i < |r| ==> r[i] == ValuePiece(data[i])
  {
    seq(|data|, i requires 0 <= i < |data| && BinaryInput(data[i]) => ValuePiece(data[i]))
  }

  /** Pieces as long as the ranges of the runs start at the bases of the runs. */
  lemma {:induction false} StartIsBase<T>(runs: seq<Run>, pieces: seq<seq<T>>, k: nat)
    requires k <= |runs| == |pieces|
    requires forall i :: 0 <= i < |runs| ==> |pieces[i]| == RunRange(runs[i]).len
    ensures Start(pieces, k) == Base(runs, k)
  {
    hide RunRange;
    if k > 0 {
      StartIsBase(runs, pieces, k - 1);
      StartNext(pieces, k - 1);
    }
  }

  ghost predicate BinaryOf(data: seq<Data>, out: Data)
    requires SameTyped(data)
  {
    && BinaryInputs(data) && HasRuns(data)
    && out.dtype.BinaryType? && VariableOf(data, out) && out.childData == []
    && out.buffers[2] == Some(Flatten(ValuePieces(data)))
  }

  lemma {:induction false} ValueStart(data: seq<Data>, k: nat)
    requires BinaryInputs(data) && HasRuns(data) && k <= |data|
    ensures Start(ValuePieces(data), k) == Base(DataRuns(data), k)
  {
    hide HasRun, BinaryInput, ValuePiece, RunRange;
    forall i | 0 <= i < |data|
      ensures |ValuePieces(data)[i]| == RunRange(DataRuns(data)[i]).len
    {
      assert BinaryInput(data[i]) && HasRun(data[i]);
    }
    StartIsBase(DataRuns(data), ValuePieces(data), k);
  }

  lemma {:induction false} BinaryLayout(data: seq<Data>, out: Data)
    requires SameTyped(data) && BinaryOf(data, out)
    ensures LayoutOk(out) && VariableOk(out, Base(DataRuns(data), |data|))
    ensures |out.buffers[2].value| == Base(DataRuns(data), |data|)
  {
    hide Flatten, HeaderOf, VariableOk, BinaryInputs, HasRuns, Base, JoinedOffsets, Int32s, DataRuns, ValuePieces;
    HeaderOffset(data, out);
    VariableLayout(data, out);
    ValueStart(data, |data|);
    FlattenLength(ValuePieces(data));
  }

  lemma {:induction false} BinaryBytes(data: seq<Data>, i: nat, b: seq<byte>, begin: nat, end: nat)
    requires BinaryInputs(data) && HasRuns(data) && i < |data|
    requires b == Flatten(ValuePieces(data))
    requires RangeOf(data[i]).offset <= begin <= end <= RangeOf(data[i]).offset + RangeOf(data[i]).len
    requires end <= |BytesOrEmpty(data[i].buffers[2])|
    ensures var base := Base(DataRuns(data), i) - RangeOf(data[i]).offset;
      && 0 <= base + begin && base + end <= |b|
      && b[base + begin..base + end] == BytesOrEmpty(data[i].buffers[2])[begin..end]
  {
    hide Flatten, VariableOk, Base, RangeOf, DataRuns, ValuePieces, OffsetRun, RunOk, HasRun, HasRuns, BytesOrEmpty;
    RunIn(data, i);
    assert BinaryInput(data[i]);
    var r := RangeOf(data[i]);
    VariableRun(data[i], |BytesOrEmpty(data[i].buffers[2])|);
    ValueStart(data, i);
    FlattenPiece(ValuePieces(data), i);
    RangeOfRange(b, Base(DataRuns(data), i), r.len, begin - r.offset, end - begin);
    RangeOfRange(BytesOrEmpty(data[i].buffers[2]), r.offset, r.len, begin - r.offset, end - begin);
  }

  lemma {:induction false} BinarySlotPlace(data: seq<Data>, out: Data, i: nat, j: nat)
    requires SameTyped(data) && BinaryOf(data, out)
    requires WellFormed(out)
    ensures SlotAgrees(data, out, i, j)
  {
    hide Flatten, HeaderOf, VariableOk, JoinedOffsets, Int32s, BinaryInputs, HasRuns, Base, DataRuns, ValuePieces,
      ValidBits, ValueRange, RangeOf, Total;
    if i < |data| && j < data[i].length && ValidBits(data[i])[j] {
      HeaderOffset(data, out);
      ValidPlace(data, out, i, j);
      assert data[i].dtype.BinaryType?;
      BinaryLayout(data, out);
      var bound := |BytesOrEmpty(data[i].buffers[2])|;
      VariablePlace(data, out, Base(DataRuns(data), |data|), i, j, bound);
      var (begin, end) := ValueRange(data[i], j, bound);
      BinaryBytes(data, i, out.buffers[2].value, begin, end);
    }
  }

  lemma {:induction false} BinaryConcat(data: seq<Data>, out: Data)
    requires SameTyped(data) && BinaryOf(data, out)
    ensures IsConcatenation(data, out)
  {
    hide Flatten, HeaderOf, VariableOk, BinaryInputs, HasRuns, Base, DataRuns, ValuePieces, JoinedOffsets;
    BinaryLayout(data, out);
    HeaderWellFormed(data, out);
    forall i: nat, j: nat
      ensures SlotAgrees(data, out, i, j)
    {
      hide *;
      BinarySlotPlace(data, out, i, j);
    }
    JoinedMeaning(data, out);
  }

  // ---------------------------------------------------------------- children

  /** Slots of a joined child are the slots of the slice they came from, and those of the child it was cut from. */
  lemma {:induction false} ChildSlots(slices: seq<Data>, out: Data, i: nat, begin: nat, end: nat, child: Data,
    from: nat, to: nat)
    requires SameTyped(slices) && IsConcatenation(slices, out)
    requires i < |slices| && begin <= end <= slices[i].length
    requires WellFormed(child) && from <= to <= child.length && slices[i] == SliceData(child, from, to)
    ensures 0 <= Total(slices, i) && Total(slices, i) + end <= out.length
    ensures Slots(out, Total(slices, i) + begin, Total(slices, i) + end) == Slots(child, from + begin, from + end)
  {
    hide Flatten, Slot, Slots, WellFormed, SliceData;
    var ms := Meanings(slices);
    var t := Total(slices, i);
    TotalMonotone(slices, 0, i);
    StartIsTotal(slices, ms, i);
    FlattenPiece(ms, i);
    SliceMeaning(child, from, to);
    SlotsMeaning(out, t + begin, t + end);
    SlotsMeaning(child, from + begin, from + end);
    RangeOfRange(Meaning(out), t, |ms[i]|, begin, end - begin);
    RangeOfRange(Meaning(child), from, to - from, begin, end - begin);
  }

  lemma {:induction false} JoinedLength(slices: seq<Data>, out: Data)
    requires SameTyped(slices) && IsConcatenation(slices, out)
    ensures out.length == Total(slices, |slices|)
  {
    hide Flatten, Slot, WellFormed, Total;
    FlattenLength(Meanings(slices));
    StartIsTotal(slices, Meanings(slices), |slices|);
  }

  // ---------------------------------------------------------------- list and map

  ghost predicate ListInput(d: Data) {
    && |d.childData| == 1 && WellFormed(d.childData[0])
    && VariableOk(d, d.childData[0].length) && HasRun(d)
    && RangeOf(d).offset + RangeOf(d).len <= d.childData[0].length
  }

  ghost predicate ListInputs(data: seq<Data>) {
    forall i :: 0 <= i < |data| ==> ListInput(data[i])
  }

  lemma {:induction false} ListInputsOk(data: seq<Data>)
    requires SameTyped(data) && IsVariableList(data[0].dtype)
    ensures ListInputs(data) && HasRuns(data)
    ensures forall i :: 0 <= i < |data| ==> data[i].childData[0].dtype == ElemType(data[0].dtype)
  {
    hide HasRun, OffsetsOk, VariableOk;
    forall i | 0 <= i < |data|
      ensures ListInput(data[i]) && data[i].childData[0].dtype == ElemType(data[0].dtype)
    {
      assert WellFormed(data[i]);
      assert WellFormed(data[i].childData[0]);
      VariableRun(data[i], data[i].childData[0].length);
    }
  }

  /** The slices of the children that the slots span. */
  ghost function RangeSlices(data: seq<Data>): (r: seq<Data>)
    requires ListInputs(data)
    ensures |r| == |data|
    ensures forall i :: 0 <= i < |r| ==> r[i] == RangeSlice(data[i])
  {
    seq(|data|, i requires 0 <= i < |data| && ListInput(data[i]) => RangeSlice(data[i]))
  }

  /** The slice of the child that the slots of one input span. */
  ghost function RangeSlice(d: Data): (r: Data)
    requires ListInput(d)
    ensures r.length == RangeOf(d).len && r.dtype == d.childData[0].dtype
  {
    SliceData(d.childData[0], RangeOf(d).offset, RangeOf(d).offset + RangeOf(d).len)
  }

  lemma {:induction false} RangeSlicesTyped(data: seq<Data>)
    requires SameTyped(data) && IsVariableList(data[0].dtype) && ListInputs(data)
    ensures SameTyped(RangeSlices(data)) && RangeSlices(data)[0].dtype == ElemType(data[0].dtype)
  {
    hide WellFormed, RangeOf, HasRun;
    ListInputsOk(data);
    forall i | 0 <= i < |data|
      ensures WellFormed(RangeSlices(data)[i]) && RangeSlices(data)[i].dtype == ElemType(data[0].dtype)
    {
      assert ListInput(data[i]);
      SliceWellFormed(data[i].childData[0], RangeOf(data[i]).offset, RangeOf(data[i]).offset + RangeOf(data[i]).len);
    }
  }

  lemma {:induction false} RangeTotal(data: seq<Data>, k: nat)
    requires ListInputs(data) && HasRuns(data) && k <= |data|
    ensures Total(RangeSlices(data), k) == Base(DataRuns(data), k)
  {
    hide ListInput, HasRun, SliceData;
    if k > 0 {
      RangeTotal(data, k - 1);
      assert ListInput(data[k - 1]) && HasRun(data[k - 1]);
    }
  }

  ghost predicate ListOf(data: seq<Data>, out: Data)
    requires SameTyped(data)
  {
    && IsVariableList(out.dtype) && ListInputs(data) && HasRuns(data)
    && VariableOf(data, out) && |out.childData| == 1
    && SameTyped(RangeSlices(data)) && RangeSlices(data)[0].dtype == ElemType(out.dtype)
    && IsConcatenation(RangeSlices(data), out.childData[0])
  }

  lemma {:induction false} ListLayout(data: seq<Data>, out: Data)
    requires SameTyped(data) && ListOf(data, out)
    ensures LayoutOk(out) && VariableOk(out, Base(DataRuns(data), |data|))
    ensures out.childData[0].length == Base(DataRuns(data), |data|)
  {
    hide HeaderOf, VariableOk, ListInputs, HasRuns, Base, JoinedOffsets, Int32s, DataRuns, RangeSlices, WellFormed,
      Meaning, Flatten, Total, SameTyped, NullsOf, Validities;
    HeaderOffset(data, out);
    VariableLayout(data, out);
    RangeTotal(data, |data|);
    JoinedLength(RangeSlices(data), out.childData[0]);
  }

  lemma {:induction false} RangeSliceAt(data: seq<Data>, i: nat)
    requires ListInputs(data) && i < |data| && ListInput(data[i])
    ensures |RangeSlices(data)| == |data| && RangeSlices(data)[i].length == RangeOf(data[i]).len
    ensures RangeSlices(data)[i] == SliceData(data[i].childData[0], RangeOf(data[i]).offset,
      RangeOf(data[i]).offset + RangeOf(data[i]).len)
  {
    hide ListInputs, RangeOf, SliceData, WellFormed, VariableOk, HasRun;
  }

  lemma {:induction false} ListChildSlots(data: seq<Data>, out: Data, i: nat, begin: nat, end: nat)
    requires SameTyped(data) && ListOf(data, out) && i < |data|
    requires RangeOf(data[i]).offset <= begin <= end <= RangeOf(data[i]).offset + RangeOf(data[i]).len
    requires ListInput(data[i])
    ensures var base := Base(DataRuns(data), i) - RangeOf(data[i]).offset;
      && 0 <= base + begin && base + end <= out.childData[0].length
      && Slots(out.childData[0], base + begin, base + end) == Slots(data[i].childData[0], begin, end)
  {
    hide HeaderOf, VariableOf, VariableOk, HasRuns, HasRun, Base, Total, DataRuns, RangeOf, WellFormed,
      IsConcatenation, Slots, SliceData, RangeSlices, SameTyped;
    var r := RangeOf(data[i]);
    RangeTotal(data, i);
    RangeSliceAt(data, i);
    ChildSlots(RangeSlices(data), out.childData[0], i, begin - r.offset, end - r.offset, data[i].childData[0],
      r.offset, r.offset + r.len);
  }

  lemma {:induction false} ListSlotPlace(data: seq<Data>, out: Data, i: nat, j: nat)
    requires SameTyped(data) && ListOf(data, out)
    requires WellFormed(out)
    ensures SlotAgrees(data, out, i, j)
  {
    hide HeaderOf, VariableOk, JoinedOffsets, Int32s, HasRuns, Base, DataRuns, RangeSlices, ValidBits, ValueRange,
      RangeOf, Total, Slots, IsConcatenation;
    if i < |data| && j < data[i].length && ValidBits(data[i])[j] {
      HeaderOffset(data, out);
      ValidPlace(data, out, i, j);
      assert data[i].dtype == out.dtype && ListInput(data[i]);
      ListLayout(data, out);
      var bound := data[i].childData[0].length;
      VariablePlace(data, out, Base(DataRuns(data), |data|), i, j, bound);
      var (begin, end) := ValueRange(data[i], j, bound);
      ListChildSlots(data, out, i, begin, end);
    }
  }

  lemma {:induction false} ListConcat(data: seq<Data>, out: Data)
    requires SameTyped(data) && ListOf(data, out)
    ensures IsConcatenation(data, out)
  {
    hide HeaderOf, VariableOk, ListInputs, HasRuns, Base, DataRuns, RangeSlices, JoinedOffsets;
    ListLayout(data, out);
    HeaderWellFormed(data, out);
    forall i: nat, j: nat
      ensures SlotAgrees(data, out, i, j)
    {
      hide *;
      ListSlotPlace(data, out, i, j);
    }
    JoinedMeaning(data, out);
  }

  // ---------------------------------------------------------------- fixed-size list

  ghost predicate FixedListInput(d: Data, n: nat) {
    && |d.childData| == 1 && WellFormed(d.childData[0])
    && 0 <= d.offset && 0 <= d.length && 0 <= d.offset * n && (d.offset + d.length) * n <= d.childData[0].length
  }

  ghost predicate FixedListInputs(data: seq<Data>, n: nat) {
    forall i :: 0 <= i < |data| ==> FixedListInput(data[i], n)
  }

  /** The slice of the child that the slots of one input span. */
  ghost function ScaledSlice(d: Data, n: nat): (r: Data)
    requires FixedListInput(d, n)
    ensures r.length == n * d.length && r.dtype == d.childData[0].dtype
  {
    MulMonotone(d.offset, d.offset + d.length, n);
    assert (d.offset + d.length) * n == d.offset * n + n * d.length;
    SliceData(d.childData[0], d.offset * n, (d.offset + d.length) * n)
  }

  ghost function ScaledSlices(data: seq<Data>, n: nat): (r: seq<Data>)
    requires FixedListInputs(data, n)
    ensures |r| == |data|
    ensures forall i :: 0 <= i < |r| ==> r[i] == ScaledSlice(data[i], n)
  {
    seq(|data|, i requires 0 <= i < |data| && FixedListInput(data[i], n) => ScaledSlice(data[i], n))
  }

  lemma {:induction false} FixedListInputsOk(data: seq<Data>)
    requires SameTyped(data) && data[0].dtype.FixedSizeListType?
    ensures FixedListInputs(data, data[0].dtype.n)
    ensures SameTyped(ScaledSlices(data, data[0].dtype.n))
      && ScaledSlices(data, data[0].dtype.n)[0].dtype == data[0].dtype.elem
  {
    var n := data[0].dtype.n;
    forall i | 0 <= i < |data|
      ensures FixedListInput(data[i], n) && data[i].childData[0].dtype == data[0].dtype.elem
    {
      FixedListInputOk(data[i]);
      assert data[i].dtype == data[0].dtype;
    }
    forall i | 0 <= i < |data|
      ensures WellFormed(ScaledSlices(data, n)[i]) && ScaledSlices(data, n)[i].dtype == data[0].dtype.elem
    {
      hide WellFormed, SliceData;
      assert FixedListInput(data[i], n);
      ScaledSliceOk(data[i], n);
    }
  }

  lemma {:induction false} FixedListInputOk(d: Data)
    requires WellFormed(d) && d.dtype.FixedSizeListType?
    ensures FixedListInput(d, d.dtype.n) && d.childData[0].dtype == d.dtype.elem
  {
    hide NullsOk;
    assert WellFormed(d.childData[0]);
    MulMonotone(0, d.offset, d.dtype.n);
  }

  lemma {:induction false} ScaledSliceOk(d: Data, n: nat)
    requires FixedListInput(d, n)
    ensures WellFormed(ScaledSlice(d, n))
  {
    hide WellFormed;
    MulMonotone(d.offset, d.offset + d.length, n);
    SliceWellFormed(d.childData[0], d.offset * n, (d.offset + d.length) * n);
  }

  lemma {:induction false} Distribute(n: int, a: int, b: int)
    ensures n * (a + b) == n * a + n * b
  {
  }

  lemma {:induction false} ScaledTotal(data: seq<Data>, n: nat, k: nat)
    requires FixedListInputs(data, n) && k <= |data|
    ensures Total(ScaledSlices(data, n), k) == n * Total(data, k)
  {
    hide FixedListInput, ScaledSlice;
    if k > 0 {
      ScaledTotal(data, n, k - 1);
      assert FixedListInput(data[k - 1], n);
      Distribute(n, Total(data, k - 1), data[k - 1].length);
    }
  }

  ghost predicate FixedListOf(data: seq<Data>, out: Data)
    requires SameTyped(data)
  {
    && out.dtype.FixedSizeListType? && FixedListInputs(data, out.dtype.n)
    && HeaderOf(data, out) && |out.childData| == 1
    && SameTyped(ScaledSlices(data, out.dtype.n)) && ScaledSlices(data, out.dtype.n)[0].dtype == out.dtype.elem
    && IsConcatenation(ScaledSlices(data, out.dtype.n), out.childData[0])
  }

  lemma {:induction false} FixedListLayout(data: seq<Data>, out: Data)
    requires SameTyped(data) && FixedListOf(data, out)
    ensures LayoutOk(out) && ValidityOk(out)
  {
    hide HeaderOf, FixedListInputs, ScaledSlices, WellFormed, Meaning, NullsOf, ValidityOk, Total, SameTyped;
    HeaderOffset(data, out);
    HeaderValidity(data, out);
    ScaledTotal(data, out.dtype.n, |data|);
    JoinedLength(ScaledSlices(data, out.dtype.n), out.childData[0]);
    Distribute(out.dtype.n, out.offset, out.length);
  }

  lemma {:induction false} FixedListChildSlots(data: seq<Data>, out: Data, i: nat, j: nat)
    requires SameTyped(data) && FixedListOf(data, out) && i < |data| && j < data[i].length
    requires FixedListInput(data[i], out.dtype.n)
    ensures var n := out.dtype.n;
      && 0 <= (Total(data, i) + j) * n && (Total(data, i) + j) * n + n <= out.childData[0].length
      && 0 <= (data[i].offset + j) * n && (data[i].offset + j) * n + n <= data[i].childData[0].length
      && Slots(out.childData[0], (Total(data, i) + j) * n, (Total(data, i) + j) * n + n)
         == Slots(data[i].childData[0], (data[i].offset + j) * n, (data[i].offset + j) * n + n)
  {
    hide HeaderOf, Total, WellFormed, IsConcatenation, Slots, SliceData, FixedListInputs, ScaledSlices, SameTyped;
    var n := out.dtype.n;
    var d := data[i];
    ScaledTotal(data, n, i);
    ScaledSliceAt(data, n, i);
    WidthInRange(d.offset, d.length, j, n);
    WidthInRange(0, d.length, j, n);
    MulMonotone(d.offset, d.offset + d.length, n);
    assert (d.offset + j) * n == d.offset * n + j * n && (Total(data, i) + j) * n == n * Total(data, i) + j * n;
    ChildSlots(ScaledSlices(data, n), out.childData[0], i, j * n, j * n + n, d.childData[0], d.offset * n,
      (d.offset + d.length) * n);
  }

  lemma {:induction false} ScaledSliceAt(data: seq<Data>, n: nat, i: nat)
    requires FixedListInputs(data, n) && i < |data| && FixedListInput(data[i], n)
    ensures |ScaledSlices(data, n)| == |data| && ScaledSlices(data, n)[i].length == n * data[i].length
    ensures 0 <= data[i].offset * n <= (data[i].offset + data[i].length) * n
    ensures ScaledSlices(data, n)[i] == SliceData(data[i].childData[0], data[i].offset * n,
      (data[i].offset + data[i].length) * n)
  {
    hide WellFormed, SliceData, FixedListInputs;
    MulMonotone(data[i].offset, data[i].offset + data[i].length, n);
  }

  lemma {:induction false} FixedListSlotIs(d: Data, i: nat)
    requires WellFormed(d) && d.dtype.FixedSizeListType? && i < d.length && ValidBits(d)[i]
    ensures |d.childData| == 1 && WellFormed(d.childData[0])
    ensures 0 <= (d.offset + i) * d.dtype.n && (d.offset + i) * d.dtype.n + d.dtype.n <= d.childData[0].length
    ensures Slot(d, i) ==
      List(Slots(d.childData[0], (d.offset + i) * d.dtype.n, (d.offset + i) * d.dtype.n + d.dtype.n))
  {
    hide NullsOk, Slots, ValidBits;
    assert WellFormed(d.childData[0]);
    WidthInRange(d.offset, d.length, i, d.dtype.n);
  }

  lemma {:induction false} FixedListSlotPlace(data: seq<Data>, out: Data, i: nat, j: nat)
    requires SameTyped(data) && FixedListOf(data, out)
    requires WellFormed(out)
    ensures SlotAgrees(data, out, i, j)
  {
    hide HeaderOf, ScaledSlices, ValidBits, Total, Slot, Slots, IsConcatenation, FixedListInputs, LayoutOk, NullsOk,
      FixedListInput, SliceData;
    if i < |data| && j < data[i].length && ValidBits(data[i])[j] {
      HeaderOffset(data, out);
      ValidPlace(data, out, i, j);
      assert data[i].dtype == out.dtype;
      FixedListInputOk(data[i]);
      FixedListChildSlots(data, out, i, j);
      FixedListSlotIs(data[i], j);
      FixedListSlotIs(out, Total(data, i) + j);
      assert out.offset + (Total(data, i) + j) == Total(data, i) + j;
    }
  }

  lemma {:induction false} FixedListConcat(data: seq<Data>, out: Data)
    requires SameTyped(data) && FixedListOf(data, out)
    ensures IsConcatenation(data, out)
  {
    hide HeaderOf, FixedListInputs, ScaledSlices, LayoutOk, ValidityOk, NullsOk, Meaning, Flatten, SlotAgrees;
    FixedListLayout(data, out);
    HeaderWellFormed(data, out);
    forall i: nat, j: nat
      ensures SlotAgrees(data, out, i, j)
    {
      hide *;
      FixedListSlotPlace(data, out, i, j);
    }
    JoinedMeaning(data, out);
  }

  // ---------------------------------------------------------------- struct

  ghost predicate StructInput(d: Data, f: nat) {
    && f < |d.childData| && WellFormed(d.childData[f])
    && 0 <= d.offset && 0 <= d.length && d.offset + d.length <= d.childData[f].length
  }

  ghost predicate StructInputs(data: seq<Data>, f: nat) {
    forall i :: 0 <= i < |data| ==> StructInput(data[i], f)
  }

  ghost function FieldSlice(d: Data, f: nat): (r: Data)
    requires StructInput(d, f)
    ensures r.length == d.length && r.dtype == d.childData[f].dtype
  {
    SliceData(d.childData[f], d.offset, d.offset + d.length)
  }

  /** The slices of the children of one field that the slots span. */
  ghost function FieldSlices(data: seq<Data>, f: nat): (r: seq<Data>)
    requires StructInputs(data, f)
    ensures |r| == |data|
    ensures forall i :: 0 <= i < |r| ==> r[i] == FieldSlice(data[i], f)
  {
    seq(|data|, i requires 0 <= i < |data| && StructInput(data[i], f) => FieldSlice(data[i], f))
  }

  lemma {:induction false} StructInputsOk(data: seq<Data>, f: nat)
    requires SameTyped(data) && data[0].dtype.StructType? && f < |data[0].dtype.fields|
    ensures StructInputs(data, f)
    ensures SameTyped(FieldSlices(data, f)) && FieldSlices(data, f)[0].dtype == data[0].dtype.fields[f]
  {
    forall i | 0 <= i < |data|
      ensures StructInput(data[i], f) && data[i].childData[f].dtype == data[0].dtype.fields[f]
    {
      StructInputOk(data[i], f);
      assert data[i].dtype == data[0].dtype;
    }
    forall i | 0 <= i < |data|
      ensures WellFormed(FieldSlices(data, f)[i]) && FieldSlices(data, f)[i].dtype == data[0].dtype.fields[f]
    {
      hide WellFormed, SliceData;
      assert StructInput(data[i], f);
      SliceWellFormed(data[i].childData[f], data[i].offset, data[i].offset + data[i].length);
    }
  }

  lemma {:induction false} StructInputOk(d: Data, f: nat)
    requires WellFormed(d) && d.dtype.StructType? && f < |d.dtype.fields|
    ensures StructInput(d, f) && d.childData[f].dtype == d.dtype.fields[f]
  {
    hide NullsOk;
    assert WellFormed(d.childData[f]);
  }

  lemma {:induction false} FieldTotal(data: seq<Data>, f: nat, k: nat)
    requires StructInputs(data, f) && k <= |data|
    ensures Total(FieldSlices(data, f), k) == Total(data, k)
  {
    hide StructInput;
    if k > 0 {
      FieldTotal(data, f, k - 1);
      assert StructInput(data[k - 1], f);
    }
  }

  /** Child f of out is the joined field f. */
  ghost predicate FieldOf(data: seq<Data>, out: Data, f: nat) {
    && f < |out.childData| && StructInputs(data, f)
    && SameTyped(FieldSlices(data, f)) && out.dtype.StructType? && f < |out.dtype.fields|
    && FieldSlices(data, f)[0].dtype == out.dtype.fields[f]
    && IsConcatenation(FieldSlices(data, f), out.childData[f])
  }

  ghost predicate StructOf(data: seq<Data>, out: Data)
    requires SameTyped(data)
  {
    && out.dtype.StructType? && HeaderOf(data, out) && |out.childData| == |out.dtype.fields|
    && forall f :: 0 <= f < |out.dtype.fields| ==> FieldOf(data, out, f)
  }

  lemma {:induction false} FieldLength(data: seq<Data>, out: Data, f: nat)
    requires FieldOf(data, out, f)
    ensures out.childData[f].length == Total(data, |data|)
    ensures WellFormed(out.childData[f]) && out.childData[f].dtype == out.dtype.fields[f]
  {
    hide StructInputs, FieldSlices, WellFormed, Meaning;
    FieldTotal(data, f, |data|);
    JoinedLength(FieldSlices(data, f), out.childData[f]);
  }

  lemma {:induction false} StructLayout(data: seq<Data>, out: Data)
    requires SameTyped(data) && StructOf(data, out)
    ensures LayoutOk(out) && forall k :: 0 <= k < |out.childData| ==> WellFormed(out.childData[k])
  {
    hide HeaderOf, FieldOf, WellFormed, NullsOf;
    HeaderOffset(data, out);
    forall f | 0 <= f < |out.dtype.fields|
      ensures out.childData[f].length == out.length && WellFormed(out.childData[f])
        && out.childData[f].dtype == out.dtype.fields[f]
    {
      assert FieldOf(data, out, f);
      FieldLength(data, out, f);
    }
  }

  lemma {:induction false} FieldSlotPlace(data: seq<Data>, out: Data, f: nat, i: nat, j: nat)
    requires FieldOf(data, out, f) && i < |data| && j < data[i].length && StructInput(data[i], f)
    ensures 0 <= Total(data, i) && Total(data, i) + j < out.childData[f].length
    ensures Slot(out.childData[f], Total(data, i) + j) == Slot(data[i].childData[f], data[i].offset + j)
  {
    hide Total, WellFormed, Meaning, Slot, SliceData, StructInputs, SameTyped;
    var d := data[i];
    FieldTotal(data, f, i);
    ChildSlots(FieldSlices(data, f), out.childData[f], i, j, j + 1, d.childData[f], d.offset, d.offset + d.length);
    var x := Slots(out.childData[f], Total(data, i) + j, Total(data, i) + j + 1);
    var y := Slots(d.childData[f], d.offset + j, d.offset + j + 1);
    assert x[0] == y[0];
  }

  /** A valid struct slot holds, field by field, what the children hold at its row. */
  lemma {:induction false} StructSlotIs(d: Data, i: nat, row: seq<Value>)
    requires WellFormed(d) && d.dtype.StructType? && i < d.length && ValidBits(d)[i]
    requires |row| == |d.childData| && forall f :: 0 <= f < |row| ==>
      StructInput(d, f) && row[f] == Slot(d.childData[f], d.offset + i)
    ensures Slot(d, i) == Struct(row)
  {
    hide NullsOk, ValidBits, StructInput, SliceData, BooleanOk, FixedWidthOk, VariableOk, ChildRange, Slots;
    assert |row| == |d.dtype.fields|;
    assert forall f :: 0 <= f < |row| ==> StructInput(d, f) && row[f] == Slot(d.childData[f], d.offset + i);
  }

  lemma {:induction false} StructSlotPlace(data: seq<Data>, out: Data, i: nat, j: nat)
    requires SameTyped(data) && StructOf(data, out)
    requires WellFormed(out)
    ensures SlotAgrees(data, out, i, j)
  {
    hide HeaderOf, FieldOf, ValidBits, Total, Slot, NullsOk;
    if i < |data| && j < data[i].length && ValidBits(data[i])[j] {
      var d, m := data[i], Total(data, i) + j;
      HeaderOffset(data, out);
      ValidPlace(data, out, i, j);
      assert d.dtype == out.dtype && WellFormed(d);
      forall f | 0 <= f < |out.dtype.fields|
        ensures StructInput(d, f) && StructInput(out, f)
          && Slot(out.childData[f], m) == Slot(d.childData[f], d.offset + j)
      {
        assert FieldOf(data, out, f);
        StructInputOk(d, f);
        StructInputOk(out, f);
        FieldSlotPlace(data, out, f, i, j);
      }
      var row := seq(|out.dtype.fields|, f requires 0 <= f < |out.dtype.fields|
        && StructInput(d, f) => Slot(d.childData[f], d.offset + j));
      StructSlotIs(d, j, row);
      StructSlotIs(out, m, row);
    }
  }

  lemma {:induction false} StructConcat(data: seq<Data>, out: Data)
    requires SameTyped(data) && StructOf(data, out)
    ensures IsConcatenation(data, out)
  {
    hide HeaderOf, FieldOf;
    StructLayout(data, out);
    HeaderWellFormed(data, out);
    forall i: nat, j: nat
      ensures SlotAgrees(data, out, i, j)
    {
      hide *;
      StructSlotPlace(data, out, i, j);
    }
    JoinedMeaning(data, out);
  }
}
