/** What a concatenation of array data has to be, slot by slot. */
module ConcatSpec {
  import opened Bits
  import opened Bitmaps
  import opened BitUtil
  import opened Int32View
  import opened Seqs
  import opened Wrappers
  import opened ArrayData
  import opened ConcatBuffers

  /** A non-empty list of well-formed data of one type. */
  ghost predicate SameTyped(data: seq<Data>) {
    && |data| > 0
    && forall i :: 0 <= i < |data| ==> WellFormed(data[i]) && data[i].dtype == data[0].dtype
  }

  /** The number of slots in the first k arrays. */
  ghost function Total(data: seq<Data>, k: nat): int
    requires k <= |data|
  {
    if k == 0 then 0 else Total(data, k - 1) + data[k - 1].length
  }

  ghost function Validities(data: seq<Data>): (r: seq<seq<bool>>)
    requires SameTyped(data)
    ensures |r| == |data| && forall i :: 0 <= i < |r| ==> |r[i]| == data[i].length
  {
    seq(|data|, i requires 0 <= i < |data| && WellFormed(data[i]) => ValidBits(data[i]))
  }

  lemma {:induction false} StartIsTotal<T>(data: seq<Data>, ss: seq<seq<T>>, k: nat)
    requires k <= |data| == |ss|
    requires forall i :: 0 <= i < |ss| ==> |ss[i]| == data[i].length
    ensures Start(ss, k) == Total(data, k)
  {
    if k > 0 {
      StartIsTotal(data, ss, k - 1);
      StartNext(ss, k - 1);
    }
  }

  /** The null count the source computes: unknown as soon as one is, otherwise the sum. */
  ghost function NullsOf(data: seq<Data>, k: nat): int
    requires k <= |data|
  {
    if k == 0 then 0
    else if NullsOf(data, k - 1) == UNKNOWN_NULL_COUNT || data[k - 1].nulls == UNKNOWN_NULL_COUNT then
      UNKNOWN_NULL_COUNT
    else WrapAdd(NullsOf(data, k - 1), data[k - 1].nulls)
  }

  /** length is the Go int of a sum, which keeps the sum modulo 2^64. */
  ghost predicate IsSumInt(length: int, sum: int) {
    -0x8000_0000_0000_0000 <= length <= 0x7fff_ffff_ffff_ffff && (sum - length) % 0x1_0000_0000_0000_0000 == 0
  }

  lemma {:induction false} SumIntZero()
    ensures IsSumInt(0, 0)
  {
  }

  lemma {:induction false} SumIntNext(length: int, sum: int, more: int)
    requires IsSumInt(length, sum)
    ensures IsSumInt(WrapAdd(length, more), sum + more)
  {
  }

  function GatherBitmaps(data: seq<Data>, idx: nat): (r: seq<BitmapRange>)
    requires forall i :: 0 <= i < |data| ==> idx < |data[i].buffers|
    ensures |r| == |data|
  {
    seq(|data|, i requires 0 <= i < |data| => BitmapRange(data[i].buffers[idx], Rng(data[i].offset, data[i].length)))
  }

  ghost predicate NeedsBitmap(data: seq<Data>)
    requires |data| > 0
  {
    NullsOf(data, |data|) != 0 && !data[0].dtype.NullType?
  }

  /** out has the length, null count and validity bitmap of the concatenation. */
  ghost predicate HeaderOf(data: seq<Data>, out: Data)
    requires SameTyped(data)
  {
    && out.dtype == data[0].dtype && out.offset == 0 && 0 <= out.length == Total(data, |data|) <= MAX_INT
    && out.nulls == NullsOf(data, |data|)
    && |out.buffers| == BufferCount(out.dtype)
    && (if NeedsBitmap(data) then
          && out.buffers[0].Some? && InRange(out.buffers[0].value, 0, out.length)
          && BitRange(out.buffers[0].value, 0, out.length) == Flatten(Validities(data))
        else out.buffers[0].None?)
  }

  lemma {:induction false} TotalMonotone(data: seq<Data>, j: nat, k: nat)
    requires SameTyped(data) && j <= k <= |data|
    ensures 0 <= Total(data, j) <= Total(data, k)
    decreases k
  {
    hide LayoutOk, NullsOk;
    if 0 < k {
      TotalMonotone(data, if j < k then j else k - 1, k - 1);
      assert WellFormed(data[k - 1]);
    }
  }

  lemma {:induction false} WrapAddFits(x: int, y: int)
    requires 0 <= x + y <= MAX_INT
    ensures WrapAdd(x, y) == x + y
  {
  }

  lemma {:induction false} NullsNone(data: seq<Data>)
    ensures NullsOf(data, 0) == 0 && Total(data, 0) == 0
  {
  }

  lemma {:induction false} NullsNext(data: seq<Data>, k: nat)
    requires k < |data|
    ensures Total(data, k + 1) == Total(data, k) + data[k].length
    ensures NullsOf(data, k + 1) != UNKNOWN_NULL_COUNT ==>
      && NullsOf(data, k) != UNKNOWN_NULL_COUNT && data[k].nulls != UNKNOWN_NULL_COUNT
      && NullsOf(data, k + 1) == WrapAdd(NullsOf(data, k), data[k].nulls)
  {
    hide WrapAdd;
  }

  /** When the lengths fit, a known null count is exact. */
  lemma {:induction false} NullsExact(data: seq<Data>, k: nat)
    requires SameTyped(data) && k <= |data| && Total(data, |data|) <= MAX_INT
    ensures NullsOf(data, k) != UNKNOWN_NULL_COUNT ==>
              && 0 <= NullsOf(data, k) <= Total(data, k)
              && NullsOf(data, k) == Total(data, k) - Count(Flatten(Validities(data)[..k]))
  {
    hide Count, Flatten, ValidBits, WrapAdd, Validities, NullsOf, Total, SameTyped;
    NoBits(Validities(data));
    NullsNone(data);
    TotalMonotone(data, k, |data|);
    if k > 0 {
      NullsExact(data, k - 1);
      TotalMonotone(data, k - 1, k);
      CountNext(Validities(data), k - 1);
      LastNulls(data, k - 1);
      NullsNext(data, k - 1);
      if NullsOf(data, k) != UNKNOWN_NULL_COUNT {
        WrapAddFits(NullsOf(data, k - 1), data[k - 1].nulls);
      }
    }
  }

  lemma {:induction false} CountNext(v: seq<seq<bool>>, k: nat)
    requires k < |v|
    ensures Count(Flatten(v[..k + 1])) == Count(Flatten(v[..k])) + Count(v[k])
  {
    hide Count, Flatten;
    assert v[..k + 1] == v[..k] + [v[k]];
    FlattenSnoc(v[..k], v[k]);
    CountConcat(Flatten(v[..k]), v[k]);
  }

  lemma {:induction false} LastNulls(data: seq<Data>, k: nat)
    requires SameTyped(data) && k < |data|
    ensures data[k].nulls == UNKNOWN_NULL_COUNT ||
      (0 <= data[k].nulls <= data[k].length && data[k].nulls == data[k].length - Count(Validities(data)[k]))
  {
    hide Count, ValidBits;
    assert WellFormed(data[k]);
  }

  lemma {:induction false} NoBits(v: seq<seq<bool>>)
    ensures Count(Flatten(v[..0])) == 0
  {
  }

  /** The joined header shows exactly the joined validity, and its null count is unknown or exact. */
  lemma {:induction false} HeaderValidity(data: seq<Data>, out: Data)
    requires SameTyped(data) && HeaderOf(data, out)
    ensures ValidityOk(out) && ValidBits(out) == Flatten(Validities(data)) && NullsOk(out)
  {
    hide Flatten, Count, BitRange;
    var v := Validities(data);
    var n := |data|;
    FlattenLength(v);
    StartIsTotal(data, v, n);
    TotalMonotone(data, 0, n);
    NullsExact(data, n);
    assert v[..n] == v;
    if !NeedsBitmap(data) {
      if out.dtype.NullType? {
        AllNull(data);
      } else {
        CountAll(Flatten(v));
        AllTrue(Flatten(v));
      }
    }
  }

  lemma {:induction false} AllTrue(bits: seq<bool>)
    requires forall k :: 0 <= k < |bits| ==> bits[k]
    ensures bits == Repeat(true, |bits|)
  {
  }

  lemma {:induction false} FlattenFalse(v: seq<seq<bool>>)
    requires forall i :: 0 <= i < |v| ==> v[i] == Repeat(false, |v[i]|)
    ensures Flatten(v) == Repeat(false, |Flatten(v)|)
  {
    hide Flatten, Start;
    forall m | 0 <= m < |Flatten(v)|
      ensures !Flatten(v)[m]
    {
      var i, j := Locate(v, m);
      FlattenAt(v, i, j);
      assert !Repeat(false, |v[i]|)[j];
    }
  }

  lemma {:induction false} AllNull(data: seq<Data>)
    requires SameTyped(data) && data[0].dtype.NullType?
    ensures 0 <= Total(data, |data|) && Flatten(Validities(data)) == Repeat(false, Total(data, |data|))
  {
    hide Flatten, Repeat, Total;
    TotalMonotone(data, 0, |data|);
    var v := Validities(data);
    FlattenLength(v);
    StartIsTotal(data, v, |data|);
    FlattenFalse(v);
  }

  /** Slot j of input i, when it is a valid slot, is found at its place in out. */
  ghost predicate SlotAgrees(data: seq<Data>, out: Data, i: nat, j: nat)
    requires SameTyped(data) && WellFormed(out)
  {
    i < |data| && j < data[i].length && ValidBits(data[i])[j] ==>
      0 <= Total(data, i) + j < out.length && Slot(out, Total(data, i) + j) == Slot(data[i], j)
  }

  ghost predicate SlotsAgree(data: seq<Data>, out: Data)
    requires SameTyped(data) && WellFormed(out)
  {
    forall i: nat, j: nat :: SlotAgrees(data, out, i, j)
  }

  ghost predicate IsConcatenation(data: seq<Data>, out: Data)
    requires SameTyped(data)
  {
    && WellFormed(out) && out.dtype == data[0].dtype
    && Meaning(out) == Flatten(Meanings(data))
  }

  lemma {:induction false} JoinedSlot(data: seq<Data>, out: Data, m: nat)
    requires SameTyped(data) && WellFormed(out) && SlotsAgree(data, out)
    requires ValidBits(out) == Flatten(Validities(data)) && m < out.length && m < |Flatten(Meanings(data))|
    ensures Slot(out, m) == Flatten(Meanings(data))[m]
  {
    hide Flatten, LayoutOk, NullsOk, ValidBits, SlotAgrees;
    var ms, vs := Meanings(data), Validities(data);
    var i, j := Locate(ms, m);
    FlattenAt(ms, i, j);
    FlattenAt(vs, i, j);
    StartIsTotal(data, ms, i);
    StartIsTotal(data, vs, i);
    assert WellFormed(data[i]) && SlotAgrees(data, out, i, j);
    SlotIsNull(data[i], j);
    SlotIsNull(out, m);
    if ValidBits(data[i])[j] {
      AgreeingSlot(data, out, i, j);
    }
  }

  lemma {:induction false} AgreeingSlot(data: seq<Data>, out: Data, i: nat, j: nat)
    requires SameTyped(data) && WellFormed(out) && SlotAgrees(data, out, i, j)
    requires i < |data| && j < data[i].length && ValidBits(data[i])[j]
    ensures 0 <= Total(data, i) + j < out.length && Slot(out, Total(data, i) + j) == Slot(data[i], j)
  {
    hide Slot, Total, ValidBits, LayoutOk, NullsOk;
    assert WellFormed(data[i]);
  }

  lemma {:induction false} SlotIsNull(d: Data, i: nat)
    requires WellFormed(d) && i < d.length
    ensures !ValidBits(d)[i] ==> Slot(d, i) == Null
  {
    hide LayoutOk, NullsOk, ValidBits;
  }

  /** Joined validity and agreeing valid slots make the joined meaning. */
  lemma {:induction false} JoinedMeaning(data: seq<Data>, out: Data)
    requires SameTyped(data) && HeaderOf(data, out) && WellFormed(out) && SlotsAgree(data, out)
    ensures IsConcatenation(data, out)
  {
    hide Flatten, NullsOf, BitRange, WellFormed;
    var ms, vs := Meanings(data), Validities(data);
    HeaderValidity(data, out);
    StartIsTotal(data, ms, |data|);
    FlattenLength(ms);
    forall m | 0 <= m < out.length
      ensures Slot(out, m) == Flatten(ms)[m]
    {
      JoinedSlot(data, out, m);
    }
  }
}
