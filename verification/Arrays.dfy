/** Array objects over array data (arrow/array/array.go). */
module Arrays {
  import opened Bits
  import opened BitUtil
  import opened Int32View
  import opened Wrappers
  import opened ArrayData

  /** The nullBitmapBytes an array keeps: arrays of nulls keep none. */
  function BitmapOf(d: Data): seq<byte>
    requires |d.buffers| > 0
  {
    if d.dtype.NullType? then [] else BytesOrEmpty(d.buffers[0])
  }

  /**
   MakeFromData accepts the data, and its null counts can be computed: an
   unknown count needs a bitmap to count in. Map data must hold entries of two
   fields with neither null entries nor null keys.
   */
  ghost predicate Constructible(d: Data)
    decreases d
  {
    && |d.buffers| > 0 && !d.dtype.OtherType?
    && (d.nulls == UNKNOWN_NULL_COUNT ==> d.dtype.NullType? || d.buffers[0].Some? || d.length == 0)
    && (d.dtype.MapType? ==>
          && |d.childData| == 1 && d.childData[0].dtype.StructType? && d.childData[0].nulls == 0
          && |d.childData[0].childData| == 2 && d.childData[0].childData[0].nulls == 0)
    && forall k :: 0 <= k < |d.childData| ==> Constructible(d.childData[k])
  }

  /** The entries of a map that is accepted are pairs, all of them there and with a key. */
  lemma {:induction false} MapEntriesHaveKeys(d: Data, t: nat)
    requires WellFormed(d) && Constructible(d) && d.dtype.MapType?
    ensures |d.childData| == 1 && WellFormed(d.childData[0])
    ensures t < d.childData[0].length ==>
      var entry := Slot(d.childData[0], t);
      entry.Struct? && |entry.fields| == 2 && entry.fields[0] != Null
  {
    hide ValidBits, FixedWidthOk, VariableOk, BooleanOk;
    assert WellFormed(d.childData[0]) && Constructible(d.childData[0]);
    if t < d.childData[0].length {
      var entries := d.childData[0];
      assert WellFormed(entries.childData[0]) && Constructible(entries.childData[0]);
      NoneNull(entries, t);
      StructFieldIs(entries, t, 0);
      NoneNull(entries.childData[0], entries.offset + t);
      SlotPresent(entries.childData[0], entries.offset + t);
    }
  }

  lemma {:induction false} NoneNull(d: Data, i: nat)
    requires ValidityOk(d) && NullsOk(d) && d.nulls == 0 && i < d.length
    ensures ValidBits(d)[i]
  {
    hide ValidBits;
    CountAll(ValidBits(d));
  }

  lemma {:induction false} SlotPresent(d: Data, i: nat)
    requires WellFormed(d) && !d.dtype.OtherType? && i < d.length && ValidBits(d)[i]
    ensures Slot(d, i) != Null
  {
    hide LayoutOk, NullsOk;
  }

  lemma {:induction false} SliceConstructible(d: Data, i: nat, j: nat)
    requires WellFormed(d) && Constructible(d) && i <= j <= d.length
    ensures Constructible(SliceData(d, i, j))
  {
    hide LayoutOk, ValidBits;
    var r := SliceData(d, i, j);
    if d.nulls != UNKNOWN_NULL_COUNT && d.buffers[0].None? && !d.dtype.NullType? {
      NothingNull(d);
    }
    forall k | 0 <= k < |r.childData|
      ensures Constructible(r.childData[k])
    {
      assert Constructible(d.childData[k]);
    }
  }

  lemma {:induction false} NothingNull(d: Data)
    requires ValidityOk(d) && NullsOk(d) && d.nulls != UNKNOWN_NULL_COUNT && d.buffers[0].None? && !d.dtype.NullType?
    ensures d.nulls == 0
  {
    CountAll(Repeat(true, d.length));
  }

  class Array {
    var data: Data
    var nullBitmapBytes: seq<byte>

    ghost predicate Valid()
      reads this
    {
      && WellFormed(data) && Constructible(data)
      && nullBitmapBytes == BitmapOf(data)
      && (data.dtype.NullType? ==> data.nulls == data.length)
    }

    /** setData: an array of nulls drops its bitmap and knows its null count. */
    constructor (d: Data)
      requires WellFormed(d) && Constructible(d)
      ensures Valid() && data == d.(nulls := data.nulls)
      ensures data.nulls == if d.dtype.NullType? then d.length else d.nulls
      ensures ValidBits(data) == ValidBits(d)
    {
      data := if d.dtype.NullType? then d.(nulls := d.length) else d;
      nullBitmapBytes := BitmapOf(d);
      new;
      hide LayoutOk;
      if d.dtype.NullType? {
        CountNone(Repeat(false, d.length));
        RecountedNulls(d, d.length);
      }
    }

    predicate IsNull(i: nat)
      requires Valid() && i < data.length
      reads this
    {
      |nullBitmapBytes| != 0 && !BitAt(nullBitmapBytes, data.offset + i)
    }

    /** Counts once, then remembers. */
    method NullN() returns (n: int)
      requires Valid()
      modifies this`data
      ensures Valid() && data == old(data).(nulls := n)
      ensures n == NullCount(old(data))
    {
      hide LayoutOk;
      if data.nulls < 0 {
        var count := CountSetBits(nullBitmapBytes, data.offset, data.length);
        RecountedNulls(data, data.length - count);
        data := data.(nulls := data.length - count);
      }
      n := data.nulls;
    }
  }

  ghost function NullFlags(a: Array): (r: seq<bool>)
    requires a.Valid()
    reads a
    ensures |r| == a.data.length
  {
    seq(a.data.length, i requires 0 <= i < a.data.length && a.Valid() reads a => a.IsNull(i))
  }

  function Negated(bits: seq<bool>): (r: seq<bool>)
    ensures |r| == |bits|
  {
    seq(|bits|, i requires 0 <= i < |bits| => !bits[i])
  }

  lemma {:induction false} CountNegated(bits: seq<bool>)
    ensures Count(Negated(bits)) == |bits| - Count(bits)
  {
    if bits != [] {
      CountNegated(bits[1..]);
      assert Negated(bits)[1..] == Negated(bits[1..]);
    }
  }

  /**
   NullN is the number of slots for which IsNull says so, except for arrays of
   nulls: every slot is null there, and IsNull says that none is.
   */
  lemma {:induction false} NullNCountsNulls(a: Array)
    requires a.Valid()
    ensures a.data.dtype.NullType? ==> Count(NullFlags(a)) == 0 && NullCount(a.data) == a.data.length
    ensures !a.data.dtype.NullType? ==> Count(NullFlags(a)) == NullCount(a.data)
  {
    hide LayoutOk;
    var v := ValidBits(a.data);
    if a.data.dtype.NullType? {
      CountNone(NullFlags(a));
      CountNone(v);
    } else {
      CountNegated(v);
      assert NullFlags(a) == Negated(v);
    }
  }

  /** Writing an exact null count changes neither the meaning nor what is well-formed. */
  lemma {:induction false} RecountedNulls(d: Data, n: int)
    requires WellFormed(d) && n == NullCount(d)
    ensures WellFormed(d.(nulls := n)) && Meaning(d.(nulls := n)) == Meaning(d)
    ensures ValidBits(d.(nulls := n)) == ValidBits(d)
    ensures Constructible(d) ==> Constructible(d.(nulls := n))
  {
    hide LayoutOk, NullsOk, ValidBits, Slot;
    var r := d.(nulls := n);
    RecountedWellFormed(d, n);
    RecountedBits(d, n);
    forall i | 0 <= i < d.length
      ensures Slot(r, i) == Slot(d, i)
    {
      RecountedSlot(d, n, i);
    }
    if Constructible(d) {
      RecountedConstructible(d, n);
    }
  }

  lemma {:induction false} RecountedBits(d: Data, n: int)
    requires ValidityOk(d)
    ensures ValidityOk(d.(nulls := n)) && ValidBits(d.(nulls := n)) == ValidBits(d)
  {
    hide BitRange, Repeat;
  }

  lemma {:induction false} RecountedSlot(d: Data, n: int, i: nat)
    requires WellFormed(d) && WellFormed(d.(nulls := n)) && i < d.length
    requires ValidBits(d.(nulls := n)) == ValidBits(d)
    ensures Slot(d.(nulls := n), i) == Slot(d, i)
  {
    hide BitAt, ValidBits, Int32s, OffsetsOk, NullsOk;
  }

  lemma {:induction false} RecountedConstructible(d: Data, n: int)
    requires Constructible(d) && n >= 0
    ensures Constructible(d.(nulls := n))
  {
    var r := d.(nulls := n);
    forall k | 0 <= k < |r.childData|
      ensures Constructible(r.childData[k])
    {
      assert Constructible(d.childData[k]);
    }
  }

  lemma {:induction false} RecountedWellFormed(d: Data, n: int)
    requires WellFormed(d) && n == NullCount(d)
    ensures WellFormed(d.(nulls := n))
  {
    hide Count, BitRange;
    RecountedLayout(d, n);
  }

  lemma {:induction false} RecountedLayout(d: Data, n: int)
    requires LayoutOk(d)
    ensures LayoutOk(d.(nulls := n))
  {
    hide OffsetsOk, Int32s;
  }
}
