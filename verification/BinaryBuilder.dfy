/** Building arrays of byte strings (arrow/array/binarybuilder.go). */
module BinaryBuilders {
  import opened Bits
  import opened Bitmaps
  import opened BitUtil
  import opened Int32View
  import opened Seqs
  import opened Wrappers
  import opened Memory
  import opened Builders
  import opened BufferBuilders
  import opened ArrayData

  /** The offset of every value, and of the end: byte counts, converted to int32. */
  ghost function Starts(vals: seq<seq<byte>>, n: nat): (r: seq<int>)
    requires n <= |vals| + 1
    ensures |r| == n && forall k :: 0 <= k < n ==> IsInt32(r[k])
  {
    seq(n, k requires 0 <= k < n => ToInt32(if k <= |vals| then Start(vals, k) else 0))
  }

  /** The meaning of what has been appended. */
  ghost function BuiltValues(validity: seq<bool>, vals: seq<seq<byte>>): (r: seq<Value>)
    requires |validity| == |vals|
    ensures |r| == |vals|
  {
    seq(|vals|, i requires 0 <= i < |vals| => if validity[i] then Bytes(vals[i]) else Null)
  }

  lemma {:induction false} Int32BytesConcat(x: seq<int>, v: int)
    ensures Int32Bytes(x + [v]) == Int32Bytes(x) + Int32Bytes([v])
  {
    hide ToByte, ByteOfInt;
  }

  /** Appending a value leaves the offsets so far alone, and puts the next one behind them. */
  lemma {:induction false} StartsSnoc(vals: seq<seq<byte>>, v: seq<byte>)
    ensures Starts(vals + [v], |vals| + 1) == Starts(vals, |vals|) + [ToInt32(|Flatten(vals)|)]
    ensures Starts(vals, |vals| + 1) == Starts(vals, |vals|) + [ToInt32(|Flatten(vals)|)]
  {
    hide ToInt32, Flatten, Start;
    FlattenLength(vals);
    var more := vals + [v];
    forall k | 0 <= k <= |vals|
      ensures Start(more, k) == Start(vals, k)
    {
      StartPrefix(more, k);
      StartPrefix(vals, k);
      assert more[..k] == vals[..k];
    }
  }

  class BinaryBuilder {
    const base: Builder
    const offsets: BufferBuilder
    const values: BufferBuilder
    /** The bytes appended for every entry; null entries may have some too. */
    ghost var vals: seq<seq<byte>>

    /** Everything the builder consists of. */
    ghost var Repr: set<object>

    ghost function Parts(): set<object>
      reads this, base, base.nullBitmap, offsets, offsets.buffer, values, values.buffer
    {
      {this} + base.Repr() + offsets.Repr() + values.Repr()
    }

    ghost predicate Separate()
      reads this, base, base.nullBitmap, offsets, offsets.buffer, values, values.buffer
    {
      && Parts() <= Repr
      && this !in base.Repr() && this !in offsets.Repr() && this !in values.Repr()
      && base.Repr() !! offsets.Repr() && base.Repr() !! values.Repr() && offsets.Repr() !! values.Repr()
    }

    /** lag entries are still missing from the bitmap, and the first offs offsets have been stored. */
    ghost predicate Holds(lag: nat, offs: nat)
      reads this, base, base.nullBitmap, offsets, offsets.buffer, values, values.buffer, Parts()
    {
      && Separate() && base.Valid() && offsets.Valid() && values.Valid()
      && |vals| == base.length + lag && offs <= |vals| + 1
      && values.Contents() == Flatten(vals)
      && offsets.Contents() == Int32Bytes(Starts(vals, offs))
    }

    ghost predicate Valid()
      reads this, base, base.nullBitmap, offsets, offsets.buffer, values, values.buffer, Parts()
    {
      Holds(0, |vals|)
    }

    ghost function Validity(): seq<bool>
      reads base, base.nullBitmap, base.Repr()
    {
      if base.Sized() then base.Validity() else []
    }

    /** How many more entries the bitmap has room for, and none without a bitmap. */
    ghost function Room(): int
      reads base
    {
      if base.nullBitmap == null then -1 else base.capacity - base.length
    }

    /** The size of the offsets buffer, and none without a buffer. */
    ghost function OffsetBytes(): int
      reads offsets, offsets.buffer
    {
      if offsets.buffer == null then -1 else offsets.buffer.length
    }

    constructor ()
      ensures Valid() && vals == [] && fresh(Repr)
    {
      base := new Builder();
      offsets := new BufferBuilder();
      values := new BufferBuilder();
      vals := [];
      new;
      Repr := Parts();
    }

    // The steps that the operations below consist of; each touches one part.

    method ResizeOffsets(n: nat)
      requires Valid() && |vals| <= n
      modifies Repr
      ensures Valid() && Validity() == old(Validity()) && vals == old(vals) && Room() == old(Room())
      ensures base.nullBitmap == old(base.nullBitmap) && OffsetBytes() == 4 * (n + 1) && fresh(Repr - old(Repr))
    {
      hide Flatten, Int32Bytes, Starts, BitRange, ZeroFrom, Invalid, ZeroBehind;
      assert |offsets.Contents()| == 4 * |vals|;
      offsets.Resize((n + 1) * 4);
      Repr := Repr + Parts();
    }

    /** init: the first bitmap. */
    method FirstBitmap(n: nat)
      requires Valid() && |vals| <= n && base.nullBitmap == null
      modifies Repr
      ensures Valid() && Validity() == old(Validity()) && vals == old(vals) && Room() == n - |vals|
      ensures OffsetBytes() == old(OffsetBytes()) && fresh(Repr - old(Repr))
    {
      hide Flatten, Int32Bytes, Starts, BitRange, ZeroFrom, Invalid, ZeroBehind;
      base.Init(n);
      Repr := Repr + Parts();
    }

    method ResizeBitmap(n: nat)
      requires Valid() && |vals| <= n
      modifies Repr
      ensures Valid() && Validity() == old(Validity()) && vals == old(vals) && Room() == n - |vals|
      ensures OffsetBytes() == old(OffsetBytes()) && fresh(Repr - old(Repr))
    {
      hide Flatten, Int32Bytes, Starts, BitRange, ZeroFrom, Invalid, ZeroBehind;
      if base.nullBitmap == null {
        FirstBitmap(n);
      } else {
        base.Resize(n);
        Repr := Repr + Parts();
      }
    }

    method EnsureBitmap()
      requires Valid()
      modifies Repr
      ensures Valid() && Validity() == old(Validity()) && vals == old(vals)
      ensures base.length == |vals| && Room() == base.capacity - base.length && fresh(Repr - old(Repr))
      ensures base.capacity == old(base.capacity)
      ensures old(base.nullBitmap) != null ==> base.nullBitmap == old(base.nullBitmap)
    {
      hide Flatten, Int32Bytes, Starts, BitRange, ZeroFrom, Invalid, ZeroBehind;
      base.EnsureBitmap();
      Repr := Repr + Parts();
    }

    method AppendNextOffset(ghost lag: nat)
      requires Holds(lag, |vals|)
      modifies Repr
      ensures Holds(lag, |vals| + 1) && Validity() == old(Validity()) && vals == old(vals) && Room() == old(Room())
      ensures base.nullBitmap == old(base.nullBitmap) && fresh(Repr - old(Repr))
    {
      hide Flatten, Int32Bytes, Starts, BitRange, ZeroFrom, Invalid, ZeroBehind, ToInt32;
      var numBytes := values.length;
      assert numBytes == |values.Contents()|;
      StartsSnoc(vals, []);
      Int32BytesConcat(Starts(vals, |vals|), ToInt32(numBytes));
      offsets.AppendInt32(ToInt32(numBytes));
      Repr := Repr + Parts();
    }

    method AppendBytes(v: seq<byte>, ghost lag: nat)
      requires Holds(lag, |vals| + 1)
      modifies Repr
      ensures vals == old(vals) + [v] && Holds(lag + 1, |vals|) && Validity() == old(Validity())
      ensures Room() == old(Room())
      ensures base.nullBitmap == old(base.nullBitmap) && fresh(Repr - old(Repr))
    {
      hide Flatten, Int32Bytes, Starts, BitRange, ZeroFrom, Invalid, ZeroBehind;
      StartsSnoc(vals, v);
      FlattenSnoc(vals, v);
      values.Append(v);
      vals := vals + [v];
      Repr := Repr + Parts();
    }

    /** A null entry gets an offset and no bytes. */
    ghost method NoBytes(lag: nat)
      requires Holds(lag, |vals| + 1)
      modifies Repr
      ensures vals == old(vals) + [[]] && Holds(lag + 1, |vals|) && Validity() == old(Validity())
      ensures Room() == old(Room())
      ensures fresh(Repr - old(Repr))
    {
      hide Flatten, Int32Bytes, Starts, BitRange, ZeroFrom, Invalid, ZeroBehind;
      StartsSnoc(vals, []);
      FlattenSnoc(vals, []);
      vals := vals + [[]];
    }

    method MarkOne(isValid: bool)
      requires Holds(1, |vals|) && Room() >= 1
      modifies Repr
      ensures Valid() && Validity() == old(Validity()) + [isValid] && vals == old(vals) && Room() == old(Room()) - 1
      ensures fresh(Repr - old(Repr))
    {
      hide Flatten, Int32Bytes, Starts, BitRange, ZeroFrom, Invalid, ZeroBehind;
      base.UnsafeAppendBoolToBitmap(isValid);
      Repr := Repr + Parts();
    }

    method MarkMany(valid: seq<bool>, n: nat)
      requires Holds(n, |vals|) && Room() >= n && (|valid| == 0 || |valid| == n)
      modifies Repr
      ensures Valid() && vals == old(vals) && Room() == old(Room()) - n
      ensures Validity() == old(Validity()) + if |valid| == 0 then Repeat(true, n) else valid
      ensures fresh(Repr - old(Repr))
    {
      hide Flatten, Int32Bytes, Starts, BitRange, ZeroFrom, Invalid, ZeroBehind;
      base.UnsafeAppendBoolsToBitmap(valid, n);
      Repr := Repr + Parts();
    }

    // The operations.

    /** Resize; below the length is not part of this model. (init resizes the offsets once more, to the same size.) */
    method Resize(n: nat)
      requires Valid() && |vals| <= n
      modifies Repr
      ensures Valid() && Validity() == old(Validity()) && vals == old(vals) && Room() == n - |vals|
      ensures base.capacity == n && OffsetBytes() == 4 * (n + 1)
      ensures fresh(Repr - old(Repr))
    {
      hide BinaryBuilder.Holds, BinaryBuilder.Validity;
      ResizeOffsets(n);
      ResizeBitmap(n);
      RoomIs();
    }

    lemma {:induction false} RoomIs()
      requires Valid()
      ensures base.length == |vals| <= base.capacity
      ensures Room() == if base.nullBitmap == null then -1 else base.capacity - |vals|
    {
      hide Flatten, Int32Bytes, Starts, BitRange, ZeroFrom, Invalid, ZeroBehind;
    }

    /** Where there is room already, nothing is given back; otherwise it becomes a power of two. */
    method Reserve(n: nat)
      requires Valid()
      modifies Repr
      ensures Valid() && Validity() == old(Validity()) && vals == old(vals) && Room() >= n
      ensures Room() >= old(Room()) && (n <= old(Room()) ==> Room() == old(Room()))
      ensures |vals| + n <= old(base.capacity) ==> base.capacity == old(base.capacity)
      ensures |vals| + n > old(base.capacity) ==>
        IsPowerOf2(base.capacity) && |vals| + n < base.capacity <= 2 * (|vals| + n)
      ensures fresh(Repr - old(Repr))
    {
      hide BinaryBuilder.Holds, BinaryBuilder.Validity;
      RoomIs();
      EnsureBitmap();
      if base.length + n > base.capacity {
        Resize(NextPowerOf2(base.length + n));
      }
    }

    /** The offset and the bytes of one more entry. */
    method AppendEntry(v: seq<byte>, ghost lag: nat)
      requires Holds(lag, |vals|)
      modifies Repr
      ensures vals == old(vals) + [v] && Holds(lag + 1, |vals|) && Validity() == old(Validity())
      ensures Room() == old(Room())
      ensures fresh(Repr - old(Repr))
    {
      hide BinaryBuilder.Holds, BinaryBuilder.Validity, BinaryBuilder.Room;
      AppendNextOffset(lag);
      AppendBytes(v, lag);
    }

    method Append(v: seq<byte>)
      requires Valid()
      modifies Repr
      ensures Valid() && Validity() == old(Validity()) + [true] && vals == old(vals) + [v]
      ensures old(Room()) >= 1 ==> Room() == old(Room()) - 1
      ensures fresh(Repr - old(Repr))
    {
      hide BinaryBuilder.Holds, BinaryBuilder.Validity, BinaryBuilder.Room;
      Reserve(1);
      AppendEntry(v, 0);
      MarkOne(true);
    }

    method AppendNull()
      requires Valid()
      modifies Repr
      ensures Valid() && Validity() == old(Validity()) + [false] && vals == old(vals) + [[]]
      ensures old(Room()) >= 1 ==> Room() == old(Room()) - 1
      ensures fresh(Repr - old(Repr))
    {
      hide BinaryBuilder.Holds, BinaryBuilder.Validity, BinaryBuilder.Room;
      Reserve(1);
      AppendNextOffset(0);
      NoBytes(0);
      MarkOne(false);
    }

    /** Fails, where the source panics, on flags that are neither absent nor one for every value. */
    method AppendValues(v: seq<seq<byte>>, valid: seq<bool>) returns (ok: bool)
      requires Valid()
      modifies Repr
      ensures ok <==> |valid| == 0 || |valid| == |v|
      ensures Valid() && fresh(Repr - old(Repr))
      ensures !ok ==> Validity() == old(Validity()) && vals == old(vals)
      ensures ok ==> vals == old(vals) + v
      ensures ok && old(Room()) >= |v| ==> Room() == old(Room()) - |v|
      ensures ok ==> Validity() == old(Validity()) + if |valid| == 0 then Repeat(true, |v|) else valid
    {
      hide BinaryBuilder.Holds, BinaryBuilder.Validity, BinaryBuilder.Room;
      if |v| != |valid| && |valid| != 0 {
        return false;
      }
      if |v| == 0 {
        return true;
      }
      Reserve(|v|);
      for i := 0 to |v|
        invariant Holds(i, |vals|) && vals == old(vals) + v[..i]
        invariant Validity() == old(Validity()) && Room() >= |v| && (old(Room()) >= |v| ==> Room() == old(Room()))
        invariant fresh(Repr - old(Repr))
      {
        AppendEntry(v[i], i);
        assert v[..i + 1] == v[..i] + [v[i]];
      }
      assert v[..|v|] == v;
      MarkMany(valid, |v|);
      return true;
    }

    /** Entry i, while building; beyond int32 the stored offsets do not hold the byte counts any more. */
    method Value(i: nat) returns (v: seq<byte>)
      requires Valid() && i < |vals|
      requires Start(vals, i) <= MAX_INT32 && (i + 1 < |vals| ==> Start(vals, i + 1) <= MAX_INT32)
      ensures v == vals[i]
    {
      hide Flatten, Int32Bytes, Starts, BitRange, ZeroFrom, Invalid, ZeroBehind, Start;
      var stored := offsets.Bytes();
      var bytes := values.Bytes();
      var offs := Int32s(stored);
      ValueAt(vals, i);
      assert |bytes| == values.length;
      var start := offs[i];
      var end;
      if i == base.length - 1 {
        end := values.length;
      } else {
        end := offs[i + 1];
      }
      v := bytes[start..end];
    }

    /** The bitmap of the finished array; the base builder starts again. */
    method TakeBitmap() returns (bitmap: ArrayData.Buffer)
      requires base.Valid()
      modifies base
      ensures base.Valid() && base.length == 0 && base.nullBitmap == null
      ensures old(base.length) > 0 ==> bitmap.Some? && InRange(bitmap.value, 0, old(base.length))
      ensures old(base.length) > 0 ==> BitRange(bitmap.value, 0, old(base.length)) == old(base.Validity())
    {
      hide BitRange, ZeroFrom, Invalid;
      if base.nullBitmap != null {
        CutBits(base.nullBitmap.buf[..], base.nullBitmap.length, base.length);
        bitmap := Some(base.nullBitmap.buf[..base.nullBitmap.length]);
      } else {
        bitmap := None;
      }
      base.Reset();
    }

    static method TakeBuffer(b: BufferBuilder, ghost contents: seq<byte>) returns (bytes: ArrayData.Buffer)
      requires b.Valid() && b.Contents() == contents
      modifies b.Repr()
      ensures b.Valid() && b.Contents() == [] && b.buffer == null
      ensures |contents| > 0 ==> bytes == Some(contents)
    {
      hide ZeroBehind;
      var result := b.Finish();
      bytes := if result == null then None else Some(result.buf[..result.length]);
    }

    /** The offsets and the bytes of the finished array; both buffers start again. */
    method FinishBuffers() returns (offs: ArrayData.Buffer, bytes: ArrayData.Buffer)
      requires Holds(0, |vals| + 1)
      modifies Repr
      ensures Separate() && base.Valid() && offsets.Valid() && values.Valid() && fresh(Repr - old(Repr))
      ensures offsets.Contents() == [] && values.Contents() == []
      ensures base.length == old(base.length) && Validity() == old(Validity()) && vals == old(vals)
      ensures offs == Some(Int32Bytes(Starts(vals, |vals| + 1)))
      ensures |Flatten(vals)| > 0 ==> bytes == Some(Flatten(vals))
    {
      hide Flatten, Int32Bytes, Starts, BitRange, ZeroFrom, Invalid, ZeroBehind;
      offs := TakeBuffer(offsets, Int32Bytes(Starts(vals, |vals| + 1)));
      bytes := TakeBuffer(values, Flatten(vals));
      Repr := Repr + Parts();
    }

    /** The buffers of the finished array, taken from the parts; the builder is empty again. */
    method FinishParts() returns (bitmap: ArrayData.Buffer, offs: ArrayData.Buffer, bytes: ArrayData.Buffer)
      requires Holds(0, |vals| + 1)
      modifies Repr
      ensures Valid() && vals == [] && fresh(Repr - old(Repr))
      ensures |old(vals)| > 0 ==> bitmap.Some? && InRange(bitmap.value, 0, |old(vals)|)
      ensures |old(vals)| > 0 ==> BitRange(bitmap.value, 0, |old(vals)|) == old(Validity())
      ensures offs == Some(Int32Bytes(Starts(old(vals), |old(vals)| + 1)))
      ensures |Flatten(old(vals))| > 0 ==> bytes == Some(Flatten(old(vals)))
    {
      hide Flatten, Int32Bytes, Starts, BitRange, InRange, ZeroFrom, Invalid, ZeroBehind, Builder.Validity,
        BinaryBuilder.Validity;
      assert |vals| == base.length;
      offs, bytes := FinishBuffers();
      bitmap := FinishBitmap();
    }

    /** The bitmap is taken last, and leaves nothing behind. */
    method FinishBitmap() returns (bitmap: ArrayData.Buffer)
      requires Separate() && base.Valid() && offsets.Valid() && values.Valid()
      requires offsets.Contents() == [] && values.Contents() == []
      modifies Repr
      ensures Valid() && vals == [] && fresh(Repr - old(Repr))
      ensures old(base.length) > 0 ==> bitmap.Some? && InRange(bitmap.value, 0, old(base.length))
      ensures old(base.length) > 0 ==> BitRange(bitmap.value, 0, old(base.length)) == old(Validity())
    {
      hide Flatten, Int32Bytes, Starts, BitRange, InRange, ZeroFrom, Invalid, ZeroBehind, Builder.Validity;
      bitmap := TakeBitmap();
      vals := [];
      NoStarts();
      Repr := Repr + Parts();
    }

    /** newData: the array of everything appended, as long as its bytes fit int32 offsets. */
    method NewData() returns (d: Data)
      requires Valid()
      modifies Repr
      ensures Valid() && vals == [] && fresh(Repr - old(Repr))
      ensures d.dtype == BinaryType && d.offset == 0 && d.length == |old(vals)| && d.nulls == Invalid(old(Validity()))
      ensures |old(vals)| <= MAX_INT && |Flatten(old(vals))| <= MAX_INT32 ==>
        WellFormed(d) && Meaning(d) == BuiltValues(old(Validity()), old(vals))
    {
      hide BinaryBuilder.Holds, Flatten, Int32Bytes, Starts, BitRange, InRange, Invalid, WellFormed, Meaning,
        BuiltValues;
      ghost var validity, appended := Validity(), vals;
      assert |vals| == base.length == |validity| && base.nulls == Invalid(validity) by {
        EmptyOrNot();
      }
      var nulls, length := base.nulls, base.length;
      AppendNextOffset(0);
      var bitmap, offs, bytes := FinishParts();
      d := Data(BinaryType, nulls, 0, length, [bitmap, offs, bytes], []);
      if |appended| <= MAX_INT && |Flatten(appended)| <= MAX_INT32 {
        BuiltMeaning(d, validity, appended);
      }
    }

    lemma {:induction false} EmptyOrNot()
      requires Valid()
      ensures |vals| == base.length == |Validity()| && base.nulls == Invalid(Validity())
    {
    }
  }

  lemma {:induction false} NoStarts()
    ensures Flatten<byte>([]) == [] && Int32Bytes(Starts([], 0)) == []
  {
  }

  /** Where the stored offsets place value i. */
  lemma {:induction false} ValueAt(vals: seq<seq<byte>>, i: nat)
    requires i < |vals|
    requires Start(vals, i) <= MAX_INT32 && (i + 1 < |vals| ==> Start(vals, i + 1) <= MAX_INT32)
    ensures Int32s(Int32Bytes(Starts(vals, |vals|))) == Starts(vals, |vals|)
    ensures Starts(vals, |vals|)[i] == Start(vals, i)
    ensures i + 1 < |vals| ==> Starts(vals, |vals|)[i + 1] == Start(vals, i + 1)
    ensures i + 1 == |vals| ==> Start(vals, i + 1) == |Flatten(vals)|
    ensures Start(vals, i) <= Start(vals, i + 1) <= |Flatten(vals)|
    ensures Flatten(vals)[Start(vals, i)..Start(vals, i + 1)] == vals[i]
  {
    hide Flatten, Int32Bytes, Start, Int32s, ToInt32;
    Int32RoundTrip(Starts(vals, |vals|));
    StartNext(vals, i);
    FlattenPiece(vals, i);
    FlattenLength(vals);
  }

  /** What newData puts together: valid entries mean the bytes appended. */
  lemma {:induction false} BuiltMeaning(d: Data, validity: seq<bool>, vals: seq<seq<byte>>)
    requires d.dtype.BinaryType? && d.offset == 0 && d.length == |vals| == |validity| && d.nulls == Invalid(validity)
    requires |d.buffers| == 3 && d.childData == []
    requires |vals| <= MAX_INT && |Flatten(vals)| <= MAX_INT32
    requires |vals| > 0 ==>
      && d.buffers[0].Some? && InRange(d.buffers[0].value, 0, |vals|)
      && BitRange(d.buffers[0].value, 0, |vals|) == validity
    requires d.buffers[1] == Some(Int32Bytes(Starts(vals, |vals| + 1)))
    requires |Flatten(vals)| > 0 ==> d.buffers[2] == Some(Flatten(vals))
    ensures WellFormed(d) && Meaning(d) == BuiltValues(validity, vals)
  {
    hide Flatten, Int32Bytes, Start, Int32s, BitRange, Count;
    BuiltOffsets(vals, Starts(vals, |vals| + 1));
    BuiltWellFormed(d, validity, vals);
    forall i | 0 <= i < |vals|
      ensures Meaning(d)[i] == BuiltValues(validity, vals)[i]
    {
      StartNext(vals, i);
      FlattenPiece(vals, i);
    }
  }

  /** Offsets that fit int32 are exactly the starts, and go up. */
  lemma {:induction false} BuiltOffsets(vals: seq<seq<byte>>, offs: seq<int>)
    requires |Flatten(vals)| <= MAX_INT32 && offs == Starts(vals, |vals| + 1)
    ensures Int32s(Int32Bytes(offs)) == offs
    ensures forall k :: 0 <= k <= |vals| ==> offs[k] == Start(vals, k)
    ensures forall i, j :: 0 <= i <= j <= |vals| ==> 0 <= offs[i] <= offs[j] <= |Flatten(vals)|
  {
    hide Flatten, Int32Bytes, Start, Int32s, ToInt32;
    Int32RoundTrip(offs);
    FlattenLength(vals);
    forall k | 0 <= k <= |vals|
      ensures offs[k] == Start(vals, k) <= |Flatten(vals)|
    {
      StartMonotone(vals, k, |vals|);
    }
    forall i, j | 0 <= i <= j <= |vals|
      ensures 0 <= offs[i] <= offs[j] <= |Flatten(vals)|
    {
      StartMonotone(vals, i, j);
    }
  }

  lemma {:induction false} BuiltWellFormed(d: Data, validity: seq<bool>, vals: seq<seq<byte>>)
    requires d.dtype.BinaryType? && d.offset == 0 && d.length == |vals| == |validity| && d.nulls == Invalid(validity)
    requires |d.buffers| == 3 && d.childData == []
    requires |vals| <= MAX_INT && |Flatten(vals)| <= MAX_INT32
    requires |vals| > 0 ==>
      && d.buffers[0].Some? && InRange(d.buffers[0].value, 0, |vals|)
      && BitRange(d.buffers[0].value, 0, |vals|) == validity
    requires d.buffers[1] == Some(Int32Bytes(Starts(vals, |vals| + 1)))
    requires |Flatten(vals)| > 0 ==> d.buffers[2] == Some(Flatten(vals))
    ensures WellFormed(d) && ValidBits(d) == validity && VariableOk(d, |BytesOrEmpty(d.buffers[2])|)
  {
    hide Flatten, Int32Bytes, Start, Int32s, BitRange, Count, Starts;
    var offs := Starts(vals, |vals| + 1);
    BuiltOffsets(vals, offs);
    assert |offs| == |vals| + 1 && OffsetsOf(d) == offs;
    if |vals| == 0 {
      assert ValidBits(d) == validity;
    }
  }

  /** The stored offsets are the byte counts exactly as long as all bytes fit an int32. */
  lemma {:induction false} OffsetsExact(vals: seq<seq<byte>>)
    ensures (forall k :: 0 <= k <= |vals| ==> Starts(vals, |vals| + 1)[k] == Start(vals, k))
       <==> |Flatten(vals)| <= MAX_INT32
  {
    hide Flatten, Start;
    FlattenLength(vals);
    var offs := Starts(vals, |vals| + 1);
    if |Flatten(vals)| <= MAX_INT32 {
      BuiltOffsets(vals, offs);
    } else {
      assert offs[|vals|] != Start(vals, |vals|);
    }
  }

  // ---------------------------------------------------------------- whole runs

  datatype Op =
    | AppendOp(v: seq<byte>)
    | NullOp
    | ValuesOp(vs: seq<seq<byte>>, valid: seq<bool>)
    | ReserveOp(n: nat)

  /** The bytes and the validity of the entries that an operation appends; mismatched flags append nothing. */
  function OpBytes(op: Op): seq<seq<byte>> {
    match op
    case AppendOp(v) => [v]
    case NullOp => [[]]
    case ValuesOp(vs, valid) => if |valid| == 0 || |valid| == |vs| then vs else []
    case ReserveOp(_) => []
  }

  function OpValidity(op: Op): seq<bool> {
    match op
    case AppendOp(v) => [true]
    case NullOp => [false]
    case ValuesOp(vs, valid) => if |valid| == 0 then Repeat(true, |vs|) else if |valid| == |vs| then valid else []
    case ReserveOp(_) => []
  }

  function RunBytes(ops: seq<Op>): seq<seq<byte>> {
    if ops == [] then [] else RunBytes(ops[..|ops| - 1]) + OpBytes(ops[|ops| - 1])
  }

  function RunValidity(ops: seq<Op>): seq<bool> {
    if ops == [] then [] else RunValidity(ops[..|ops| - 1]) + OpValidity(ops[|ops| - 1])
  }

  lemma {:induction false} RunNext(ops: seq<Op>, i: nat)
    requires i < |ops|
    ensures RunBytes(ops[..i + 1]) == RunBytes(ops[..i]) + OpBytes(ops[i])
    ensures RunValidity(ops[..i + 1]) == RunValidity(ops[..i]) + OpValidity(ops[i])
  {
    assert ops[..i + 1][..i] == ops[..i];
  }

  lemma {:induction false} RunLengths(ops: seq<Op>)
    ensures |RunBytes(ops)| == |RunValidity(ops)|
  {
    if ops != [] {
      RunLengths(ops[..|ops| - 1]);
    }
  }

  method Apply(b: BinaryBuilder, op: Op)
    requires b.Valid()
    modifies b.Repr
    ensures b.Valid() && fresh(b.Repr - old(b.Repr))
    ensures b.vals == old(b.vals) + OpBytes(op) && b.Validity() == old(b.Validity()) + OpValidity(op)
  {
    hide BinaryBuilder.Holds, BinaryBuilder.Validity;
    match op {
      case AppendOp(v) => b.Append(v);
      case NullOp => b.AppendNull();
      case ValuesOp(vs, valid) => var ok := b.AppendValues(vs, valid);
      case ReserveOp(n) => b.Reserve(n);
    }
  }

  /** Any run of appends and reservations, and then NewArray: the array means what the run appended. */
  method Build(ops: seq<Op>) returns (d: Data)
    ensures |RunBytes(ops)| == |RunValidity(ops)| == d.length
    ensures |RunBytes(ops)| <= MAX_INT && |Flatten(RunBytes(ops))| <= MAX_INT32 ==>
      WellFormed(d) && Meaning(d) == BuiltValues(RunValidity(ops), RunBytes(ops))
  {
    hide Flatten, WellFormed, Meaning, BuiltValues, BinaryBuilder.Holds, BinaryBuilder.Validity, OpBytes, OpValidity,
      RunBytes, RunValidity;
    var b := new BinaryBuilder();
    EmptyRun(b);
    RunLengths(ops);
    for i := 0 to |ops|
      invariant fresh(b) && fresh(b.Repr) && b.Valid()
      invariant b.vals == RunBytes(ops[..i]) && b.Validity() == RunValidity(ops[..i])
    {
      RunNext(ops, i);
      Apply(b, ops[i]);
    }
    assert ops[..|ops|] == ops;
    d := b.NewData();
  }

  lemma {:induction false} EmptyRun(b: BinaryBuilder)
    requires b.Valid() && b.vals == []
    ensures b.Validity() == [] == RunValidity([]) && RunBytes([]) == []
  {
  }
}
