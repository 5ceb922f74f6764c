/** Chunked arrays: one logical column in several arrays (arrow/array/table.go). */
module ChunkedArrays {
  import opened Bits
  import opened BitUtil
  import opened Seqs
  import opened Wrappers
  import opened ArrayData
  import opened Arrays
  import opened Compare
  import opened ConcatBuffers
  import opened ConcatSpec

  datatype Chunked = Chunked(dtype: DataType, chunks: seq<Data>, length: int, nulls: int)

  ghost predicate AllComparable(chunks: seq<Data>) {
    forall k :: 0 <= k < |chunks| ==> Comparable(chunks[k])
  }

  /** The chunks read end to end. */
  ghost function ValuesOf(chunks: seq<Data>): seq<Value>
    requires AllComparable(chunks)
  {
    Flatten(Meanings(chunks))
  }

  ghost function NullTotal(chunks: seq<Data>, k: nat): int
    requires AllComparable(chunks) && k <= |chunks|
  {
    if k == 0 then 0 else NullTotal(chunks, k - 1) + NullCount(chunks[k - 1])
  }

  ghost predicate OfType(chunks: seq<Data>, t: DataType) {
    forall k :: 0 <= k < |chunks| ==> chunks[k].dtype == t
  }

  /** What NewChunked establishes: chunks of one type, with exact length and null count. */
  ghost predicate ChunkedOk(c: Chunked) {
    && AllComparable(c.chunks) && OfType(c.chunks, c.dtype)
    && c.length == |ValuesOf(c.chunks)| && c.nulls == NullTotal(c.chunks, |c.chunks|)
  }

  ghost function Values(c: Chunked): (r: seq<Value>)
    requires ChunkedOk(c)
    ensures |r| == c.length
  {
    ValuesOf(c.chunks)
  }

  lemma {:induction false} NullTotalBound(chunks: seq<Data>, k: nat)
    requires AllComparable(chunks) && k <= |chunks|
    ensures 0 <= NullTotal(chunks, k) <= Start(Meanings(chunks), k)
  {
    hide WellFormed, Constructible, NullCount, Meaning;
    if k > 0 {
      NullTotalBound(chunks, k - 1);
      StartNext(Meanings(chunks), k - 1);
      NullTotalNext(chunks, k - 1);
    }
  }

  lemma {:induction false} NullTotalNext(chunks: seq<Data>, k: nat)
    requires AllComparable(chunks) && k < |chunks|
    ensures NullTotal(chunks, k) <= NullTotal(chunks, k + 1) <= NullTotal(chunks, k) + chunks[k].length
  {
    hide LayoutOk, ValidBits;
    assert Comparable(chunks[k]);
  }

  /** When the values fit an int, neither running sum wraps. */
  lemma {:induction false} SumsFit(chunks: seq<Data>, k: nat)
    requires AllComparable(chunks) && k < |chunks| && |ValuesOf(chunks)| <= MAX_INT
    ensures WrapAdd(Start(Meanings(chunks), k), chunks[k].length) == Start(Meanings(chunks), k + 1)
    ensures WrapAdd(NullTotal(chunks, k), NullTotal(chunks, k + 1) - NullTotal(chunks, k)) == NullTotal(chunks, k + 1)
  {
    hide WellFormed, Constructible, Meaning, WrapAdd, Flatten, Start, NullTotal;
    var ms := Meanings(chunks);
    FlattenLength(ms);
    StartNext(ms, k);
    StartMonotone(ms, k + 1, |chunks|);
    NullTotalBound(chunks, k);
    NullTotalBound(chunks, k + 1);
    NullTotalNext(chunks, k);
    WrapAddFits(Start(ms, k), chunks[k].length);
    WrapAddFits(NullTotal(chunks, k), NullTotal(chunks, k + 1) - NullTotal(chunks, k));
  }

  method ChunkNulls(chunks: seq<Data>, k: nat) returns (n: int)
    requires AllComparable(chunks) && k < |chunks|
    ensures n == NullTotal(chunks, k + 1) - NullTotal(chunks, k)
  {
    hide LayoutOk;
    assert Comparable(chunks[k]);
    var chunk := new Array(chunks[k]);
    n := chunk.NullN();
  }

  /** Fails, where the source panics, exactly on a chunk of another type. */
  method NewChunked(dtype: DataType, chunks: seq<Data>) returns (r: Result<Chunked>)
    requires AllComparable(chunks)
    ensures r.Success? <==> OfType(chunks, dtype)
    ensures r.Success? ==> r.value.dtype == dtype && r.value.chunks == chunks
    ensures r.Success? && |ValuesOf(chunks)| <= MAX_INT ==> ChunkedOk(r.value)
  {
    hide WellFormed, Constructible, NullCount, Meaning, WrapAdd, Flatten;
    var length, nulls := 0, 0;
    FlattenLength(Meanings(chunks));
    for i := 0 to |chunks|
      invariant forall k :: 0 <= k < i ==> chunks[k].dtype == dtype
      invariant |ValuesOf(chunks)| <= MAX_INT ==> length == Start(Meanings(chunks), i)
      invariant |ValuesOf(chunks)| <= MAX_INT ==> nulls == NullTotal(chunks, i)
    {
      if chunks[i].dtype != dtype {
        return Failure("arrow/array: mismatch data type");
      }
      if |ValuesOf(chunks)| <= MAX_INT {
        SumsFit(chunks, i);
      }
      length := WrapAdd(length, chunks[i].length);
      var n := ChunkNulls(chunks, i);
      nulls := WrapAdd(nulls, n);
    }
    return Success(Chunked(dtype, chunks, length, nulls));
  }

  // ---------------------------------------------------------------- NewSlice

  /** The chunks that hold sz values from beg on, when beg lies in the first chunk or in front of it. */
  function TakeChunks(chunks: seq<Data>, beg: int, sz: int): seq<Data> {
    if chunks == [] || sz <= 0 then []
    else
      var c := chunks[0];
      [SliceData(c, beg, if beg + sz > c.length then c.length else beg + sz)]
      + TakeChunks(chunks[1..], 0, sz - (c.length - beg))
  }

  /** What NewSlice does: pass over whole chunks, then take. */
  function SliceChunks(chunks: seq<Data>, beg: int, sz: int): seq<Data> {
    if chunks == [] then []
    else if beg >= chunks[0].length then SliceChunks(chunks[1..], beg - chunks[0].length, sz)
    else TakeChunks(chunks, beg, sz)
  }

  lemma {:induction false} ValuesOfCons(chunks: seq<Data>)
    requires AllComparable(chunks) && chunks != []
    ensures AllComparable(chunks[1..])
    ensures ValuesOf(chunks) == Meaning(chunks[0]) + ValuesOf(chunks[1..])
  {
    hide WellFormed, Constructible, Meaning;
    assert Meanings(chunks)[1..] == Meanings(chunks[1..]);
  }

  lemma {:induction false} PieceComparable(d: Data, i: nat, j: nat)
    requires Comparable(d) && i <= j <= d.length
    ensures Comparable(SliceData(d, i, j)) && Meaning(SliceData(d, i, j)) == Meaning(d)[i..j]
    ensures SliceData(d, i, j).dtype == d.dtype
  {
    SliceMeaning(d, i, j);
    SliceConstructible(d, i, j);
  }

  lemma {:induction false} TakeValues(chunks: seq<Data>, t: DataType, beg: nat, sz: int)
    requires AllComparable(chunks) && OfType(chunks, t)
    requires chunks != [] && sz > 0 ==> beg <= chunks[0].length
    requires beg + sz <= |ValuesOf(chunks)|
    ensures AllComparable(TakeChunks(chunks, beg, sz)) && OfType(TakeChunks(chunks, beg, sz), t)
    ensures ValuesOf(TakeChunks(chunks, beg, sz)) == if sz <= 0 then [] else ValuesOf(chunks)[beg..beg + sz]
    decreases chunks
  {
    hide LayoutOk, NullsOk, Constructible, Meaning, ValuesOf, SliceData;
    if chunks == [] || sz <= 0 {
      NoValues();
    } else {
      var c := chunks[0];
      var end := if beg + sz > c.length then c.length else beg + sz;
      var out := TakeChunks(chunks, beg, sz);
      ValuesOfCons(chunks);
      assert Comparable(c);
      PieceComparable(c, beg, end);
      TakeValues(chunks[1..], t, 0, sz - (c.length - beg));
      assert out[1..] == TakeChunks(chunks[1..], 0, sz - (c.length - beg));
      ValuesOfCons(out);
      assert |Meaning(c)| == c.length;
      SplitRange(Meaning(c), ValuesOf(chunks[1..]), beg, sz, end);
    }
  }

  lemma {:induction false} SplitRange<T>(x: seq<T>, y: seq<T>, beg: nat, sz: nat, end: nat)
    requires beg <= |x| && beg + sz <= |x| + |y|
    requires end == if beg + sz > |x| then |x| else beg + sz
    ensures (x + y)[beg..beg + sz] == x[beg..end] + if sz - (|x| - beg) <= 0 then [] else y[..sz - (|x| - beg)]
  {
  }

  lemma {:induction false} NoValues()
    ensures ValuesOf([]) == []
  {
  }

  lemma {:induction false} SliceValues(chunks: seq<Data>, t: DataType, beg: nat, sz: nat)
    requires AllComparable(chunks) && OfType(chunks, t) && beg + sz <= |ValuesOf(chunks)|
    ensures AllComparable(SliceChunks(chunks, beg, sz)) && OfType(SliceChunks(chunks, beg, sz), t)
    ensures ValuesOf(SliceChunks(chunks, beg, sz)) == ValuesOf(chunks)[beg..beg + sz]
    decreases chunks
  {
    hide LayoutOk, NullsOk, Constructible, Meaning, ValuesOf, TakeChunks;
    if chunks == [] {
      NoValues();
    } else {
      ValuesOfCons(chunks);
      if beg >= chunks[0].length {
        SliceValues(chunks[1..], t, beg - chunks[0].length, sz);
      } else {
        TakeValues(chunks, t, beg, sz);
      }
    }
  }

  // ---------------------------------------------------------------- a slice of a slice

  /** The end of the first piece that TakeChunks cuts. */
  function FirstEnd(chunks: seq<Data>, beg: nat, sz: nat): (end: nat)
    requires chunks != [] && beg <= chunks[0].length
    ensures beg <= end <= chunks[0].length
  {
    if beg + sz > chunks[0].length then chunks[0].length else beg + sz
  }

  lemma {:induction false} TakeOfTake(chunks: seq<Data>, t: DataType, beg: nat, sz: nat, k: nat, l: int)
    requires AllComparable(chunks) && OfType(chunks, t)
    requires chunks != [] && sz > 0 ==> beg <= chunks[0].length && k <= FirstEnd(chunks, beg, sz) - beg
    requires beg + sz <= |ValuesOf(chunks)| && k + l <= sz
    ensures AllComparable(TakeChunks(chunks, beg, sz))
    ensures l > 0 ==> TakeChunks(TakeChunks(chunks, beg, sz), k, l) == TakeChunks(chunks, beg + k, l)
    decreases chunks
  {
    hide LayoutOk, NullsOk, Constructible, Meaning, ValuesOf;
    TakeValues(chunks, t, beg, sz);
    if chunks != [] && l > 0 {
      var c := chunks[0];
      assert Comparable(c);
      ValuesOfCons(chunks);
      assert |Meaning(c)| == c.length;
      var end := FirstEnd(chunks, beg, sz);
      var first, rest := SliceData(c, beg, end), chunks[1..];
      var taken := TakeChunks(chunks, beg, sz);
      assert taken[0] == first && taken[1..] == TakeChunks(rest, 0, sz - (c.length - beg));
      assert SliceData(first, k, if k + l > end - beg then end - beg else k + l)
        == SliceData(c, beg + k, if beg + k + l > end then end else beg + k + l);
      if end == c.length && sz > c.length - beg {
        TakeOfTake(rest, t, 0, sz - (c.length - beg), 0, k + l - (end - beg));
      }
    }
  }

  lemma {:induction false} SliceNothing(chunks: seq<Data>, beg: int)
    ensures SliceChunks(chunks, beg, 0) == []
  {
    hide SliceData;
    if chunks == [] {
    } else if beg >= chunks[0].length {
      SliceNothing(chunks[1..], beg - chunks[0].length);
    }
  }

  lemma {:induction false} SliceOfTake(chunks: seq<Data>, t: DataType, beg: nat, sz: nat, k: nat, l: nat)
    requires AllComparable(chunks) && OfType(chunks, t) && chunks != [] && beg <= chunks[0].length
    requires beg + sz <= |ValuesOf(chunks)| && k + l <= sz && 0 < l
    ensures AllComparable(TakeChunks(chunks, beg, sz))
    ensures SliceChunks(TakeChunks(chunks, beg, sz), k, l) == SliceChunks(chunks, beg + k, l)
    decreases chunks
  {
    hide LayoutOk, NullsOk, Constructible, Meaning, ValuesOf;
    TakeValues(chunks, t, beg, sz);
    var c := chunks[0];
    assert Comparable(c);
    ValuesOfCons(chunks);
    assert |Meaning(c)| == c.length;
    var end := FirstEnd(chunks, beg, sz);
    NoValues();
    var taken := TakeChunks(chunks, beg, sz);
    assert taken[0] == SliceData(c, beg, end) && taken[1..] == TakeChunks(chunks[1..], 0, sz - (c.length - beg));
    if k >= end - beg {
      SliceOfTake(chunks[1..], t, 0, sz - (end - beg), k - (end - beg), l);
    } else {
      TakeOfTake(chunks, t, beg, sz, k, l);
    }
  }

  /** Slicing a slice is slicing once with added offsets, chunk for chunk. */
  lemma {:induction false} SliceOfSlice(chunks: seq<Data>, t: DataType, beg: nat, sz: nat, k: nat, l: nat)
    requires AllComparable(chunks) && OfType(chunks, t)
    requires beg + sz <= |ValuesOf(chunks)| && k + l <= sz
    ensures AllComparable(SliceChunks(chunks, beg, sz))
    ensures SliceChunks(SliceChunks(chunks, beg, sz), k, l) == SliceChunks(chunks, beg + k, l)
    decreases chunks
  {
    hide LayoutOk, NullsOk, Constructible, Meaning, ValuesOf, TakeChunks;
    SliceValues(chunks, t, beg, sz);
    if l == 0 {
      SliceNothing(SliceChunks(chunks, beg, sz), k);
      SliceNothing(chunks, beg + k);
    } else if chunks != [] {
      ValuesOfCons(chunks);
      assert Comparable(chunks[0]);
      assert |Meaning(chunks[0])| == chunks[0].length;
      if beg >= chunks[0].length {
        SliceOfSlice(chunks[1..], t, beg - chunks[0].length, sz, k, l);
      } else {
        SliceOfTake(chunks, t, beg, sz, k, l);
      }
    } else {
      NoValues();
    }
  }

  // ---------------------------------------------------------------- the loops of NewSlice

  lemma {:induction false} SkipChunk(chunks: seq<Data>, cur: nat, beg: int, sz: int)
    requires cur < |chunks| && beg >= chunks[cur].length
    ensures SliceChunks(chunks[cur..], beg, sz) == SliceChunks(chunks[cur + 1..], beg - chunks[cur].length, sz)
  {
    assert chunks[cur..][1..] == chunks[cur + 1..];
  }

  lemma {:induction false} StartTaking(chunks: seq<Data>, cur: nat, beg: int, sz: int)
    requires cur <= |chunks| && (cur == |chunks| || beg < chunks[cur].length)
    ensures SliceChunks(chunks[cur..], beg, sz) == TakeChunks(chunks[cur..], beg, sz)
  {
  }

  lemma {:induction false} TakeChunk(chunks: seq<Data>, cur: nat, beg: int, sz: int, end: int)
    requires cur < |chunks| && beg <= chunks[cur].length && sz > 0
    requires end == if beg + sz > chunks[cur].length then chunks[cur].length else beg + sz
    ensures NewSliceData(chunks[cur], beg, end) == Success(SliceData(chunks[cur], beg, end))
    ensures TakeChunks(chunks[cur..], beg, sz)
         == [SliceData(chunks[cur], beg, end)] + TakeChunks(chunks[cur + 1..], 0, sz - (chunks[cur].length - beg))
  {
    assert chunks[cur..][1..] == chunks[cur + 1..];
  }

  lemma {:induction false} NoneLeft(chunks: seq<Data>, cur: nat, beg: int, sz: int)
    requires cur <= |chunks| && (cur == |chunks| || sz <= 0)
    ensures TakeChunks(chunks[cur..], beg, sz) == []
  {
  }

  lemma {:induction false} LengthsNatural(chunks: seq<Data>)
    requires AllComparable(chunks)
    ensures forall k :: 0 <= k < |chunks| ==> 0 <= chunks[k].length
  {
    hide LayoutOk, NullsOk, Constructible;
    forall k | 0 <= k < |chunks|
      ensures 0 <= chunks[k].length
    {
      assert Comparable(chunks[k]);
    }
  }

  /** The guard and the two loops of NewSlice: no slice of a chunk is refused. */
  method CutChunks(a: Chunked, i: int, j: int) returns (r: Result<seq<Data>>)
    requires ChunkedOk(a) && (i <= j <= a.length ==> j - i <= MAX_INT)
    ensures r.Success? <==> i <= j <= a.length
    ensures r.Success? ==> r.value == SliceChunks(a.chunks, i, j - i)
  {
    hide WellFormed, Constructible, Meaning, ValuesOf, NullTotal, SliceChunks, TakeChunks, SliceData, NewSliceData;
    if j > a.length || i > j || i > a.length {
      return Failure("arrow/array: index out of range");
    }
    LengthsNatural(a.chunks);
    var cur, beg, sz := 0, i, j - i;
    var chunks := [];
    assert a.chunks[0..] == a.chunks;
    while cur < |a.chunks| && beg >= a.chunks[cur].length
      invariant 0 <= cur <= |a.chunks|
      invariant SliceChunks(a.chunks[cur..], beg, sz) == SliceChunks(a.chunks, i, j - i)
    {
      SkipChunk(a.chunks, cur, beg, sz);
      beg := beg - a.chunks[cur].length;
      cur := cur + 1;
    }
    StartTaking(a.chunks, cur, beg, sz);
    while cur < |a.chunks| && sz > 0
      invariant 0 <= cur <= |a.chunks|
      invariant cur < |a.chunks| && sz > 0 ==> beg <= a.chunks[cur].length
      invariant chunks + TakeChunks(a.chunks[cur..], beg, sz) == SliceChunks(a.chunks, i, j - i)
    {
      var arr := a.chunks[cur];
      var end := beg + sz;
      if end > arr.length {
        end := arr.length;
      }
      TakeChunk(a.chunks, cur, beg, sz, end);
      var slice := NewSliceData(arr, beg, end);
      chunks := chunks + [slice.value];
      sz := sz - (arr.length - beg);
      beg := 0;
      cur := cur + 1;
    }
    NoneLeft(a.chunks, cur, beg, sz);
    assert chunks + [] == chunks;
    return Success(chunks);
  }

  /** What NewChunked needs of the chunks that a slice is cut into; only a negative start can break it. */
  ghost predicate CutOk(a: Chunked, i: int, j: int) {
    i <= j <= a.length ==>
      && j - i <= MAX_INT
      && AllComparable(SliceChunks(a.chunks, i, j - i)) && OfType(SliceChunks(a.chunks, i, j - i), a.dtype)
      && |ValuesOf(SliceChunks(a.chunks, i, j - i))| <= MAX_INT
  }

  lemma {:induction false} CutInside(a: Chunked, i: int, j: int)
    requires ChunkedOk(a) && a.length <= MAX_INT && 0 <= i
    ensures CutOk(a, i, j)
  {
    hide WellFormed, Constructible, Meaning, ValuesOf, NullTotal, SliceChunks, TakeChunks, SliceData;
    if i <= j <= a.length {
      SliceValues(a.chunks, a.dtype, i, j - i);
    }
  }

  /**
   Fails, where the source panics, exactly when the range ends outside the array
   or before its start. So ranges outside the array are refused if and only if
   the start is not negative or the guard refuses the range anyway. An accepted
   range inside the array is the slice of its values.
   */
  method NewSlice(a: Chunked, i: int, j: int) returns (r: Result<Chunked>)
    requires ChunkedOk(a) && a.length <= MAX_INT && (i < 0 ==> CutOk(a, i, j))
    ensures r.Success? <==> i <= j <= a.length
    ensures (r.Success? <==> 0 <= i <= j <= a.length) <==> (0 <= i || j < i || a.length < j)
    ensures r.Success? ==>
      && ChunkedOk(r.value) && r.value.dtype == a.dtype && r.value.chunks == SliceChunks(a.chunks, i, j - i)
    ensures r.Success? && 0 <= i ==> r.value.length == j - i && Values(r.value) == Values(a)[i..j]
  {
    hide WellFormed, Constructible, Meaning, ValuesOf, NullTotal, SliceChunks, TakeChunks, SliceData, OfType,
      AllComparable;
    if 0 <= i {
      CutInside(a, i, j);
    }
    var cut := CutChunks(a, i, j);
    if cut.Failure? {
      return Failure(cut.error);
    }
    if 0 <= i {
      SliceValues(a.chunks, a.dtype, i, j - i);
    }
    r := NewChunked(a.dtype, cut.value);
  }

  /**
   A negative start is let through when the first chunk is itself a slice: the
   result then begins with values that are not in the array.
   */
  lemma {:induction false} NegativeSlice(base: Data, from: nat, to: nat, i: int, j: nat)
    requires Comparable(base) && from <= to <= base.length && i < 0 <= from + i && j <= to - from
    ensures SliceChunks([SliceData(base, from, to)], i, j - i) == [SliceData(base, from + i, from + j)]
    ensures Comparable(SliceData(base, from + i, from + j))
    ensures ValuesOf([SliceData(base, from + i, from + j)]) == Meaning(base)[from + i..from + j]
  {
    hide WellFormed, Constructible, Meaning;
    var c, r := SliceData(base, from, to), SliceData(base, from + i, from + j);
    PieceComparable(base, from + i, from + j);
    assert TakeChunks([c], i, j - i) == [SliceData(c, i, j)] + TakeChunks([], 0, j - i - (c.length - i));
    ValuesOfCons([r]);
    NoValues();
  }
}
