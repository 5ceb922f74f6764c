/** Two chunked arrays walked in lock-step, and their equality (arrow/array/compare.go). */
module ChunkedCompare {
  import opened Bits
  import opened BitUtil
  import opened Seqs
  import opened Wrappers
  import opened ArrayData
  import opened Arrays
  import opened Compare
  import opened ChunkedArrays

  /** One call of the function given to chunkedBinaryApply: a range of a left chunk and one of a right chunk. */
  datatype Piece = Piece(lchunk: nat, lbeg: nat, lend: nat, rchunk: nat, rbeg: nat, rend: nat)

  /** The number of values that the first k calls cover. */
  function Covered(calls: seq<Piece>, k: nat): int
    requires k <= |calls|
  {
    if k == 0 then 0 else Covered(calls, k - 1) + (calls[k - 1].lend - calls[k - 1].lbeg)
  }

  /** The range [beg, end) of chunk k is a non-empty range of that chunk, and starts at position at of the array. */
  ghost predicate RangeAt(chunks: seq<Data>, k: nat, beg: nat, end: nat, at: int)
    requires AllComparable(chunks)
  {
    k < |chunks| && beg < end <= chunks[k].length && Start(Meanings(chunks), k) + beg == at
  }

  /**
   A largest piece of both columns that no chunk boundary cuts: it starts at
   position at, where a chunk of either side starts, and ends where one ends.
   */
  ghost predicate PieceAt(left: Chunked, right: Chunked, p: Piece, at: int)
    requires ChunkedOk(left) && ChunkedOk(right)
  {
    && RangeAt(left.chunks, p.lchunk, p.lbeg, p.lend, at)
    && RangeAt(right.chunks, p.rchunk, p.rbeg, p.rend, at)
    && p.lend - p.lbeg == p.rend - p.rbeg
    && (p.lbeg == 0 || p.rbeg == 0)
    && (p.lend == left.chunks[p.lchunk].length || p.rend == right.chunks[p.rchunk].length)
  }

  /** Consecutive such pieces from 0 to n. */
  ghost predicate Partition(left: Chunked, right: Chunked, calls: seq<Piece>, n: int)
    requires ChunkedOk(left) && ChunkedOk(right)
  {
    && Covered(calls, |calls|) == n
    && forall k :: 0 <= k < |calls| ==> PieceAt(left, right, calls[k], Covered(calls, k))
  }

  lemma {:induction false} CoveredPrefix(calls: seq<Piece>, p: Piece, k: nat)
    requires k <= |calls|
    ensures Covered(calls + [p], k) == Covered(calls, k)
  {
    if k > 0 {
      CoveredPrefix(calls, p, k - 1);
    }
  }

  lemma {:induction false} ExtendPartition(left: Chunked, right: Chunked, calls: seq<Piece>, n: int, p: Piece)
    requires ChunkedOk(left) && ChunkedOk(right) && Partition(left, right, calls, n) && PieceAt(left, right, p, n)
    ensures Partition(left, right, calls + [p], n + (p.lend - p.lbeg))
  {
    hide ChunkedOk, PieceAt, Meanings;
    var more := calls + [p];
    CoveredPrefix(calls, p, |calls|);
    forall k | 0 <= k < |more|
      ensures PieceAt(left, right, more[k], Covered(more, k))
    {
      CoveredPrefix(calls, p, k);
    }
  }

  /** A cursor (k, off) stands at position at of the array. */
  ghost predicate CursorAt(chunks: seq<Data>, k: nat, off: nat, at: int)
    requires AllComparable(chunks)
  {
    k < |chunks| && off <= chunks[k].length && Start(Meanings(chunks), k) + off == at
  }

  /** A cursor at the end of its chunk moves to the next one, which exists before the end of the array. */
  lemma {:induction false} NextChunk(chunks: seq<Data>, k: nat, off: nat, at: int)
    requires AllComparable(chunks) && CursorAt(chunks, k, off, at) && off == chunks[k].length
    requires at < |ValuesOf(chunks)|
    ensures CursorAt(chunks, k + 1, 0, at)
  {
    hide WellFormed, Constructible, Meaning, Flatten, Start;
    var ms := Meanings(chunks);
    StartNext(ms, k);
    FlattenLength(ms);
    if k + 1 < |chunks| {
      assert |ms[k + 1]| == chunks[k + 1].length;
    }
  }

  lemma {:induction false} FirstChunk(chunks: seq<Data>)
    requires AllComparable(chunks) && 0 < |ValuesOf(chunks)|
    ensures CursorAt(chunks, 0, 0, 0)
  {
    hide WellFormed, Constructible, Meaning;
    assert |Meanings(chunks)[0]| == chunks[0].length;
  }

  /** A range of a chunk reads the values at its position. */
  lemma {:induction false} PieceInside(chunks: seq<Data>, k: nat, beg: nat, end: nat, at: int)
    requires AllComparable(chunks) && RangeAt(chunks, k, beg, end, at)
    ensures Comparable(chunks[k]) && 0 <= at && at + (end - beg) <= |ValuesOf(chunks)|
    ensures ValuesOf(chunks)[at..at + (end - beg)] == Meaning(chunks[k])[beg..end]
  {
    hide WellFormed, Constructible, Meaning, Flatten, Start;
    var ms, v := Meanings(chunks), ValuesOf(chunks);
    FlattenPiece(ms, k);
    var s := Start(ms, k);
    assert Comparable(chunks[k]);
    assert |ms[k]| == chunks[k].length;
    assert ms[k] == Meaning(chunks[k]);
    RangeOfRange(v, s, |ms[k]|, beg, end - beg);
    assert v[s + beg..s + end] == v[s..s + |ms[k]|][beg..end];
  }

  /** The largest piece at two cursors, and the cursors behind it. */
  lemma {:induction false} LargestPiece(left: Chunked, right: Chunked, p: Piece, at: int)
    requires ChunkedOk(left) && ChunkedOk(right)
    requires CursorAt(left.chunks, p.lchunk, p.lbeg, at) && CursorAt(right.chunks, p.rchunk, p.rbeg, at)
    requires p.lbeg < p.lend <= left.chunks[p.lchunk].length && p.rbeg < p.rend <= right.chunks[p.rchunk].length
    requires p.lend - p.lbeg == p.rend - p.rbeg && (p.lbeg == 0 || p.rbeg == 0)
    requires p.lend == left.chunks[p.lchunk].length || p.rend == right.chunks[p.rchunk].length
    ensures PieceAt(left, right, p, at) && at + (p.lend - p.lbeg) <= left.length
    ensures CursorAt(left.chunks, p.lchunk, p.lend, at + (p.lend - p.lbeg))
    ensures CursorAt(right.chunks, p.rchunk, p.rend, at + (p.lend - p.lbeg))
  {
    hide WellFormed, Constructible, Meaning, Flatten, Start;
    PieceInside(left.chunks, p.lchunk, p.lbeg, p.lend, at);
  }

  /** One of the two cursors is where a chunk starts or ends. */
  ghost predicate AtBoundary(left: Chunked, right: Chunked, lidx: nat, lpos: nat, ridx: nat, rpos: nat)
    requires lidx < |left.chunks| && ridx < |right.chunks|
  {
    lpos == 0 || rpos == 0 || lpos == left.chunks[lidx].length || rpos == right.chunks[ridx].length
  }

  /**
   chunkedBinaryApply, as the list of the calls it makes. The function it calls
   only says whether to go on, so what is called is a prefix of this list.
   */
  method ChunkedBinaryApply(left: Chunked, right: Chunked) returns (calls: seq<Piece>)
    requires ChunkedOk(left) && ChunkedOk(right) && left.length == right.length
    ensures Partition(left, right, calls, left.length)
  {
    hide WellFormed, Constructible, Meanings, Flatten, Start, Partition, PieceAt, NullTotal;
    var pos := 0;
    var leftIdx, rightIdx, leftPos, rightPos := 0, 0, 0, 0;
    calls := [];
    EmptyPartition(left, right);
    if 0 < left.length {
      FirstChunk(left.chunks);
      FirstChunk(right.chunks);
    }
    while pos < left.length
      invariant 0 <= pos <= left.length
      invariant 0 <= leftIdx && 0 <= rightIdx && 0 <= leftPos && 0 <= rightPos
      invariant pos < left.length ==> CursorAt(left.chunks, leftIdx, leftPos, pos)
      invariant pos < left.length ==> CursorAt(right.chunks, rightIdx, rightPos, pos)
      invariant pos < left.length ==> AtBoundary(left, right, leftIdx, leftPos, rightIdx, rightPos)
      invariant Partition(left, right, calls, pos)
    {
      leftIdx, leftPos, rightIdx, rightPos := SkipFinished(left, right, leftIdx, leftPos, rightIdx, rightPos, pos);
      var lrest, rrest := left.chunks[leftIdx].length - leftPos, right.chunks[rightIdx].length - rightPos;
      var sz := if lrest < rrest then lrest else rrest;
      var piece := Piece(leftIdx, leftPos, leftPos + sz, rightIdx, rightPos, rightPos + sz);
      LargestPiece(left, right, piece, pos);
      ExtendPartition(left, right, calls, pos, piece);
      pos := pos + sz;
      calls := calls + [piece];
      leftPos := leftPos + sz;
      rightPos := rightPos + sz;
    }
  }

  lemma {:induction false} EmptyPartition(left: Chunked, right: Chunked)
    requires ChunkedOk(left) && ChunkedOk(right)
    ensures Partition(left, right, [], 0)
  {
  }

  /** The inner loop: step over chunks that are used up, empty ones included. */
  method SkipFinished(left: Chunked, right: Chunked, lidx: nat, lpos: nat, ridx: nat, rpos: nat, pos: nat)
    returns (leftIdx: nat, leftPos: nat, rightIdx: nat, rightPos: nat)
    requires ChunkedOk(left) && ChunkedOk(right) && left.length == right.length && pos < left.length
    requires CursorAt(left.chunks, lidx, lpos, pos) && CursorAt(right.chunks, ridx, rpos, pos)
    requires AtBoundary(left, right, lidx, lpos, ridx, rpos)
    ensures CursorAt(left.chunks, leftIdx, leftPos, pos) && leftPos < left.chunks[leftIdx].length
    ensures CursorAt(right.chunks, rightIdx, rightPos, pos) && rightPos < right.chunks[rightIdx].length
    ensures leftPos == 0 || rightPos == 0
  {
    hide WellFormed, Constructible, Meanings, Flatten, Start, NullTotal;
    leftIdx, leftPos, rightIdx, rightPos := lidx, lpos, ridx, rpos;
    while true
      invariant CursorAt(left.chunks, leftIdx, leftPos, pos) && CursorAt(right.chunks, rightIdx, rightPos, pos)
      invariant AtBoundary(left, right, leftIdx, leftPos, rightIdx, rightPos)
      decreases |left.chunks| - leftIdx + |right.chunks| - rightIdx
    {
      if leftPos == left.chunks[leftIdx].length {
        NextChunk(left.chunks, leftIdx, leftPos, pos);
        leftPos := 0;
        leftIdx := leftIdx + 1;
        continue;
      }
      if rightPos == right.chunks[rightIdx].length {
        NextChunk(right.chunks, rightIdx, rightPos, pos);
        rightPos := 0;
        rightIdx := rightIdx + 1;
        continue;
      }
      break;
    }
  }

  // ---------------------------------------------------------------- ChunkedEqual

  ghost predicate SameColumn(left: Chunked, right: Chunked)
    requires ChunkedOk(left) && ChunkedOk(right)
  {
    left.dtype == right.dtype && Values(left) == Values(right)
  }

  function CountNulls(vs: seq<Value>): nat {
    if vs == [] then 0 else (if vs[0].Null? then 1 else 0) + CountNulls(vs[1..])
  }

  lemma {:induction false} CountNullsConcat(x: seq<Value>, y: seq<Value>)
    ensures CountNulls(x + y) == CountNulls(x) + CountNulls(y)
  {
    if x == [] {
      assert x + y == y;
    } else {
      CountNullsConcat(x[1..], y);
      assert (x + y)[1..] == x[1..] + y;
    }
  }

  lemma {:induction false} NullsAreUnset(vs: seq<Value>, bits: seq<bool>)
    requires |vs| == |bits| && forall i :: 0 <= i < |vs| ==> (vs[i].Null? <==> !bits[i])
    ensures CountNulls(vs) == |bits| - Count(bits)
  {
    if vs != [] {
      NullsAreUnset(vs[1..], bits[1..]);
    }
  }

  lemma {:induction false} MeaningNulls(d: Data)
    requires Comparable(d)
    ensures CountNulls(Meaning(d)) == NullCount(d)
  {
    hide LayoutOk, NullsOk, ValidBits, Slot, Constructible, Count;
    forall i | 0 <= i < d.length
      ensures Meaning(d)[i].Null? <==> !ValidBits(d)[i]
    {
      if ValidBits(d)[i] { ValidSlot(d, i); } else { NullSlot(d, i); }
    }
    NullsAreUnset(Meaning(d), ValidBits(d));
  }

  /** The null count of a chunked array is the number of nulls among its values. */
  lemma {:induction false} ColumnNulls(chunks: seq<Data>, k: nat)
    requires AllComparable(chunks) && k <= |chunks|
    ensures NullTotal(chunks, k) == CountNulls(Flatten(Meanings(chunks)[..k]))
  {
    hide WellFormed, Constructible, Meaning, NullCount;
    var ms := Meanings(chunks);
    if k > 0 {
      ColumnNulls(chunks, k - 1);
      assert ms[..k] == ms[..k - 1] + [ms[k - 1]];
      FlattenSnoc(ms[..k - 1], ms[k - 1]);
      CountNullsConcat(Flatten(ms[..k - 1]), ms[k - 1]);
      assert Comparable(chunks[k - 1]);
      MeaningNulls(chunks[k - 1]);
    }
  }

  lemma {:induction false} SameColumnSameNulls(left: Chunked, right: Chunked)
    requires ChunkedOk(left) && ChunkedOk(right) && Values(left) == Values(right)
    ensures left.length == right.length && left.nulls == right.nulls
  {
    hide WellFormed, Constructible, Meaning, NullTotal, Flatten, CountNulls;
    ColumnNulls(left.chunks, |left.chunks|);
    ColumnNulls(right.chunks, |right.chunks|);
    assert Meanings(left.chunks)[..|left.chunks|] == Meanings(left.chunks);
    assert Meanings(right.chunks)[..|right.chunks|] == Meanings(right.chunks);
  }

  /** ArraySliceEqual: equal values, and agreement in what the two ranges hide. */
  method ArraySliceEqual(left: Data, lbeg: nat, lend: nat, right: Data, rbeg: nat, rend: nat) returns (eq: bool)
    requires Comparable(left) && Comparable(right) && lbeg <= lend <= left.length && rbeg <= rend <= right.length
    ensures eq <==>
      && left.dtype == right.dtype && Meaning(left)[lbeg..lend] == Meaning(right)[rbeg..rend]
      && HiddenAgree(SliceData(left, lbeg, lend), SliceData(right, rbeg, rend))
  {
    hide WellFormed, Constructible, HiddenAgree, Meaning;
    PieceComparable(left, lbeg, lend);
    PieceComparable(right, rbeg, rend);
    eq := ArrayEqual(SliceData(left, lbeg, lend), SliceData(right, rbeg, rend));
  }

  /** Equality of the pieces is equality of the columns as far as the pieces reach. */
  lemma {:induction false} ExtendEqual(left: Chunked, right: Chunked, p: Piece, at: nat)
    requires ChunkedOk(left) && ChunkedOk(right) && PieceAt(left, right, p, at)
    ensures Comparable(left.chunks[p.lchunk]) && Comparable(right.chunks[p.rchunk])
    ensures at + (p.lend - p.lbeg) <= left.length && at + (p.lend - p.lbeg) <= right.length
    ensures Values(left)[..at] == Values(right)[..at] &&
            Meaning(left.chunks[p.lchunk])[p.lbeg..p.lend] == Meaning(right.chunks[p.rchunk])[p.rbeg..p.rend]
            <==> Values(left)[..at + (p.lend - p.lbeg)] == Values(right)[..at + (p.lend - p.lbeg)]
  {
    hide WellFormed, Constructible, Meaning, Meanings, Flatten, NullTotal;
    PieceInside(left.chunks, p.lchunk, p.lbeg, p.lend, at);
    PieceInside(right.chunks, p.rchunk, p.rbeg, p.rend, at);
    PrefixesEqual(Values(left), Values(right), at, at + (p.lend - p.lbeg));
  }

  lemma {:induction false} PrefixesEqual<T>(v: seq<T>, w: seq<T>, at: nat, end: nat)
    requires at <= end <= |v| && end <= |w|
    ensures v[..at] == w[..at] && v[at..end] == w[at..end] <==> v[..end] == w[..end]
  {
    assert v[..end] == v[..at] + v[at..end] && w[..end] == w[..at] + w[at..end];
    assert v[..end][..at] == v[..at] && w[..end][..at] == w[..at];
  }

  lemma {:induction false} PieceBounds(left: Chunked, right: Chunked, p: Piece, at: int)
    requires ChunkedOk(left) && ChunkedOk(right) && PieceAt(left, right, p, at)
    ensures p.lchunk < |left.chunks| && p.lbeg < p.lend <= left.chunks[p.lchunk].length
    ensures p.rchunk < |right.chunks| && p.rbeg < p.rend <= right.chunks[p.rchunk].length
    ensures left.chunks[p.lchunk].dtype == left.dtype && right.chunks[p.rchunk].dtype == right.dtype
  {
  }

  /** The two sides of a piece agree in what they hide. */
  ghost predicate PieceAgrees(left: Chunked, right: Chunked, p: Piece) {
    && p.lchunk < |left.chunks| && p.rchunk < |right.chunks|
    && HiddenAgree(SliceData(left.chunks[p.lchunk], p.lbeg, p.lend), SliceData(right.chunks[p.rchunk], p.rbeg, p.rend))
  }

  /** Between chunk boundaries, the columns agree in what they hide. */
  ghost predicate PiecesAgree(left: Chunked, right: Chunked)
    requires ChunkedOk(left) && ChunkedOk(right)
  {
    forall p: Piece, at: int :: PieceAt(left, right, p, at) ==> PieceAgrees(left, right, p)
  }

  /** The call of chunkedBinaryApply's function for one piece. */
  method PieceEqual(left: Chunked, right: Chunked, p: Piece, at: nat) returns (eq: bool)
    requires ChunkedOk(left) && ChunkedOk(right) && PieceAt(left, right, p, at) && left.dtype == right.dtype
    requires at <= left.length && at <= right.length && Values(left)[..at] == Values(right)[..at]
    ensures at + (p.lend - p.lbeg) <= left.length && at + (p.lend - p.lbeg) <= right.length
    ensures eq <==>
      && Values(left)[..at + (p.lend - p.lbeg)] == Values(right)[..at + (p.lend - p.lbeg)]
      && PieceAgrees(left, right, p)
  {
    hide WellFormed, Constructible, Meaning, Values, NullTotal, Flatten, HiddenAgree, PieceAt;
    ExtendEqual(left, right, p, at);
    PieceBounds(left, right, p, at);
    eq := ArraySliceEqual(left.chunks[p.lchunk], p.lbeg, p.lend, right.chunks[p.rchunk], p.rbeg, p.rend);
  }

  lemma {:induction false} CoveredNothing(calls: seq<Piece>)
    ensures Covered(calls, 0) == 0
  {
  }

  lemma {:induction false} CoveredNext(calls: seq<Piece>, k: nat)
    requires k < |calls|
    ensures Covered(calls, k + 1) == Covered(calls, k) + (calls[k].lend - calls[k].lbeg)
  {
  }

  /** Every piece covers something. */
  lemma {:induction false} CoveredGrows(left: Chunked, right: Chunked, calls: seq<Piece>, n: int, j: nat, k: nat)
    requires ChunkedOk(left) && ChunkedOk(right) && Partition(left, right, calls, n) && j <= k <= |calls|
    ensures Covered(calls, j) + (k - j) <= Covered(calls, k)
    decreases k
  {
    hide ChunkedOk, PieceAt, Covered;
    if j < k {
      CoveredGrows(left, right, calls, n, j, k - 1);
      CoveredNext(calls, k - 1);
      assert PieceAt(left, right, calls[k - 1], Covered(calls, k - 1));
      PieceBounds(left, right, calls[k - 1], Covered(calls, k - 1));
    }
  }

  /** The call that covers a position. */
  lemma {:induction false} Covering(left: Chunked, right: Chunked, calls: seq<Piece>, n: int, at: int, k: nat)
    returns (c: nat)
    requires ChunkedOk(left) && ChunkedOk(right) && Partition(left, right, calls, n)
    requires k <= |calls| && 0 <= at < Covered(calls, k)
    ensures c < |calls| && Covered(calls, c) <= at < Covered(calls, c + 1)
    decreases k
  {
    hide ChunkedOk, PieceAt, Covered, Partition;
    CoveredNothing(calls);
    assert k > 0;
    if at < Covered(calls, k - 1) {
      c := Covering(left, right, calls, n, at, k - 1);
    } else {
      c := k - 1;
    }
  }

  /** Ranges that share a position are ranges of the same chunk. */
  lemma {:induction false} SameChunk(chunks: seq<Data>, k: nat, beg: nat, end: nat, at: int, k': nat, beg': nat,
    end': nat, at': int)
    requires AllComparable(chunks) && RangeAt(chunks, k, beg, end, at) && RangeAt(chunks, k', beg', end', at')
    requires at <= at' < at + (end - beg)
    ensures k == k'
  {
    hide WellFormed, Constructible, Meaning, Flatten, Start;
    var ms := Meanings(chunks);
    assert |ms[k]| == chunks[k].length && |ms[k']| == chunks[k'].length;
    StartNext(ms, k);
    StartNext(ms, k');
    if k < k' {
      StartMonotone(ms, k + 1, k');
    } else if k' < k {
      StartMonotone(ms, k' + 1, k);
    }
  }

  /** A largest piece is fixed by any position inside it. */
  lemma {:induction false} SamePiece(left: Chunked, right: Chunked, p: Piece, at: int, q: Piece, at': int)
    requires ChunkedOk(left) && ChunkedOk(right) && PieceAt(left, right, p, at) && PieceAt(left, right, q, at')
    requires at <= at' < at + (p.lend - p.lbeg)
    ensures p == q && at == at'
  {
    hide WellFormed, Constructible, Meanings, Flatten, Start, NullTotal;
    SameChunk(left.chunks, p.lchunk, p.lbeg, p.lend, at, q.lchunk, q.lbeg, q.lend, at');
    SameChunk(right.chunks, p.rchunk, p.rbeg, p.rend, at, q.rchunk, q.rbeg, q.rend, at');
  }

  /** The calls are all the largest pieces there are, so they do not depend on the walk. */
  lemma {:induction false} EveryPieceCalled(left: Chunked, right: Chunked, calls: seq<Piece>, p: Piece, at: int)
    requires ChunkedOk(left) && ChunkedOk(right) && Partition(left, right, calls, left.length)
    requires PieceAt(left, right, p, at)
    ensures p in calls
  {
    hide ChunkedOk, Covered, RangeAt, Values;
    PieceBounds(left, right, p, at);
    InsideLeft(left, right, p, at);
    var c := Covering(left, right, calls, left.length, at, |calls|);
    CoveredNext(calls, c);
    assert PieceAt(left, right, calls[c], Covered(calls, c));
    SamePiece(left, right, calls[c], Covered(calls, c), p, at);
  }

  lemma {:induction false} InsideLeft(left: Chunked, right: Chunked, p: Piece, at: int)
    requires ChunkedOk(left) && ChunkedOk(right) && PieceAt(left, right, p, at)
    ensures 0 <= at && at + (p.lend - p.lbeg) <= left.length
  {
    hide WellFormed, Constructible, Meaning, Meanings, Flatten, NullTotal;
    PieceInside(left.chunks, p.lchunk, p.lbeg, p.lend, at);
  }

  /** The first k calls agree in what they hide. */
  ghost predicate CallsAgree(left: Chunked, right: Chunked, calls: seq<Piece>, k: nat)
    requires k <= |calls|
  {
    forall j :: 0 <= j < k ==> PieceAgrees(left, right, calls[j])
  }

  lemma {:induction false} AllCallsAgree(left: Chunked, right: Chunked, calls: seq<Piece>)
    requires ChunkedOk(left) && ChunkedOk(right) && Partition(left, right, calls, left.length)
    requires CallsAgree(left, right, calls, |calls|)
    ensures PiecesAgree(left, right)
  {
    hide ChunkedOk, PieceAt, PieceAgrees, Partition;
    forall p: Piece, at: int | PieceAt(left, right, p, at)
      ensures PieceAgrees(left, right, p)
    {
      EveryPieceCalled(left, right, calls, p, at);
    }
  }

  /** The walk of ChunkedEqual; its result variable is first set by the first piece. */
  method PiecesEqual(left: Chunked, right: Chunked) returns (isequal: bool)
    requires ChunkedOk(left) && ChunkedOk(right) && left.dtype == right.dtype && left.length == right.length
    ensures isequal <==> 0 < left.length && Values(left) == Values(right) && PiecesAgree(left, right)
  {
    hide ChunkedOk, Values, PieceAt, Covered, PieceAgrees;
    assert |Values(left)| == left.length && |Values(right)| == left.length;
    isequal := false;
    var calls := ChunkedBinaryApply(left, right);
    CoveredGrows(left, right, calls, left.length, 0, |calls|);
    CoveredNothing(calls);
    for k := 0 to |calls|
      invariant 0 <= Covered(calls, k) <= left.length
      invariant isequal <==> 0 < k
      invariant Values(left)[..Covered(calls, k)] == Values(right)[..Covered(calls, k)]
      invariant CallsAgree(left, right, calls, k)
    {
      CoveredGrows(left, right, calls, left.length, 0, k + 1);
      CoveredGrows(left, right, calls, left.length, k + 1, |calls|);
      CoveredNext(calls, k);
      assert PieceAt(left, right, calls[k], Covered(calls, k));
      isequal := PieceEqual(left, right, calls[k], Covered(calls, k));
      if !isequal {
        return false;
      }
    }
    AllCallsAgree(left, right, calls);
    assert Values(left)[..left.length] == Values(left) && Values(right)[..left.length] == Values(right);
  }

  /**
   Equal exactly when they are the same object, or not empty, of the same type
   and values, and agree in what they hide between any two chunk boundaries.
   Two distinct empty columns are never equal, whatever their types.
   */
  method ChunkedEqual(left: Chunked, right: Chunked, same: bool) returns (eq: bool)
    requires ChunkedOk(left) && ChunkedOk(right) && (same ==> left == right)
    ensures eq <==> same || (0 < left.length && SameColumn(left, right) && PiecesAgree(left, right))
  {
    hide ChunkedOk, Values, PiecesAgree;
    if same {
      return true;
    }
    if Values(left) == Values(right) {
      SameColumnSameNulls(left, right);
    }
    if left.length != right.length {
      return false;
    }
    if left.nulls != right.nulls {
      return false;
    }
    if left.dtype != right.dtype {
      return false;
    }
    eq := PiecesEqual(left, right);
  }

  // ---------------------------------------------------------------- hidden values and chunks

  ghost predicate AllDense(c: Chunked)
    requires ChunkedOk(c)
  {
    forall k :: 0 <= k < |c.chunks| ==> Comparable(c.chunks[k]) && Dense(c.chunks[k])
  }

  /** Without null struct slots, ChunkedEqual does not depend on the chunks: equal values are enough. */
  lemma {:induction false} DenseColumns(left: Chunked, right: Chunked)
    requires ChunkedOk(left) && ChunkedOk(right) && SameColumn(left, right) && AllDense(left) && AllDense(right)
    ensures PiecesAgree(left, right)
  {
    hide WellFormed, Constructible, Meaning, Meanings, NullTotal, Flatten, Dense, HiddenAgree, PieceAt;
    forall p: Piece, at: int | PieceAt(left, right, p, at)
      ensures PieceAgrees(left, right, p)
    {
      PieceBounds(left, right, p, at);
      var l, r := left.chunks[p.lchunk], right.chunks[p.rchunk];
      PieceValues(left, right, p, at);
      PieceComparable(l, p.lbeg, p.lend);
      PieceComparable(r, p.rbeg, p.rend);
      SliceDense(l, p.lbeg, p.lend);
      SliceDense(r, p.rbeg, p.rend);
      DenseAgree(SliceData(l, p.lbeg, p.lend), SliceData(r, p.rbeg, p.rend));
    }
  }

  lemma {:induction false} PieceValues(left: Chunked, right: Chunked, p: Piece, at: int)
    requires ChunkedOk(left) && ChunkedOk(right) && Values(left) == Values(right) && PieceAt(left, right, p, at)
    ensures Comparable(left.chunks[p.lchunk]) && Comparable(right.chunks[p.rchunk])
    ensures Meaning(left.chunks[p.lchunk])[p.lbeg..p.lend] == Meaning(right.chunks[p.rchunk])[p.rbeg..p.rend]
  {
    hide WellFormed, Constructible, Meaning, Meanings, Flatten, NullTotal;
    PieceInside(left.chunks, p.lchunk, p.lbeg, p.lend, at);
    PieceInside(right.chunks, p.rchunk, p.rbeg, p.rend, at);
  }

  /** Two rows, the second null with a value under it, in one chunk. */
  function InOneChunk(hidden: byte): Chunked {
    Chunked(HidingStruct(hidden).dtype, [HidingStruct(hidden)], 2, 1)
  }

  /** The same rows in two chunks. */
  function InTwoChunks(hidden: byte): Chunked {
    Chunked(HidingStruct(hidden).dtype, [HidingRow(hidden, 0), HidingRow(hidden, 1)], 2, 1)
  }

  function HidingRow(hidden: byte, row: nat): Data {
    SliceData(HidingStruct(hidden), row, row + 1)
  }

  lemma {:induction false} HidingRowMeaning(hidden: byte, row: nat)
    requires row < 2
    ensures Comparable(HidingRow(hidden, row)) && NullCount(HidingRow(hidden, row)) == row
    ensures Meaning(HidingRow(hidden, row)) == if row == 0 then [Struct([Bytes([7])])] else [Null]
  {
    hide Meaning, Constructible;
    var d := HidingStruct(hidden);
    HidingStructMeaning(hidden);
    PieceComparable(d, row, row + 1);
    SliceValidBits(d, row, row + 1);
    OneOfTwo(d.buffers[0].value);
    assert ValidBits(d) == [true, false];
    assert ValidBits(HidingRow(hidden, row)) == if row == 0 then [true] else [false];
  }

  lemma {:induction false} OneChunk(hidden: byte)
    ensures ChunkedOk(InOneChunk(hidden)) && Values(InOneChunk(hidden)) == [Struct([Bytes([7])]), Null]
    ensures InOneChunk(hidden).length == 2 && InOneChunk(hidden).dtype == StructType([FixedWidthType(1)])
  {
    hide Meaning, WellFormed, Constructible, NullCount;
    var c := InOneChunk(hidden);
    HidingStructMeaning(hidden);
    ValuesOfCons(c.chunks);
    NoValues();
    assert NullTotal(c.chunks, 1) == NullTotal(c.chunks, 0) + 1;
  }

  lemma {:induction false} TwoChunks(hidden: byte)
    ensures ChunkedOk(InTwoChunks(hidden)) && Values(InTwoChunks(hidden)) == [Struct([Bytes([7])]), Null]
    ensures InTwoChunks(hidden).dtype == StructType([FixedWidthType(1)])
  {
    hide Meaning, WellFormed, Constructible, NullCount;
    var c := InTwoChunks(hidden);
    HidingRowMeaning(hidden, 0);
    HidingRowMeaning(hidden, 1);
    ValuesOfCons(c.chunks);
    ValuesOfCons(c.chunks[1..]);
    NoValues();
    assert c.chunks[1..][1..] == [];
    assert NullTotal(c.chunks, 1) == NullTotal(c.chunks, 0) + 0;
    assert NullTotal(c.chunks, 2) == NullTotal(c.chunks, 1) + 1;
  }

  lemma {:induction false} RowsAgree(row: nat)
    requires row < 2
    ensures HiddenAgree(HidingRow(1, row), HidingRow(2, row))
  {
    hide Meaning, WellFormed, Constructible, NullCount, ValidBits;
    HidingRowMeaning(1, row);
    HidingRowMeaning(2, row);
    if row == 0 {
      FirstField(1);
      FirstField(2);
      var l, r := HidingRow(1, 0), HidingRow(2, 0);
      FlatAgree(Field(l, 0), Field(r, 0));
      assert FieldEqual(l, r, 0);
    }
  }

  /** The field of the first row. */
  lemma {:induction false} FirstField(hidden: byte)
    ensures StructOk(HidingRow(hidden, 0)) && Comparable(Field(HidingRow(hidden, 0), 0))
    ensures Meaning(Field(HidingRow(hidden, 0), 0)) == [Bytes([7])]
    ensures ValidBits(Field(HidingRow(hidden, 0), 0)) == [true]
  {
    hide Meaning, Constructible, LayoutOk, NullsOk;
    HidingFieldMeaning(hidden);
    HidingRowMeaning(hidden, 0);
    StructIsOk(HidingRow(hidden, 0));
    PieceComparable(HidingField(hidden), 0, 1);
    assert Meaning(HidingField(hidden))[0..1] == [Bytes([7])];
  }

  /** Of two chunks of one value against one chunk of two, the largest pieces are the two values. */
  lemma {:induction false} ValuePieces(left: Chunked, right: Chunked, p: Piece, at: int)
    requires ChunkedOk(left) && ChunkedOk(right) && PieceAt(left, right, p, at)
    requires |left.chunks| == 2 && left.chunks[0].length == left.chunks[1].length == 1 && |right.chunks| == 1
    ensures p.lchunk < 2 && p == Piece(p.lchunk, 0, 1, 0, p.lchunk, p.lchunk + 1)
  {
    hide Meaning, WellFormed, Constructible, NullTotal, Flatten;
    var ms := Meanings(left.chunks);
    assert |ms[0]| == 1;
    StartNext(ms, 0);
  }

  lemma {:induction false} RowPieceAgrees(p: Piece, at: int)
    requires ChunkedOk(InTwoChunks(1)) && ChunkedOk(InOneChunk(2))
    requires PieceAt(InTwoChunks(1), InOneChunk(2), p, at)
    ensures PieceAgrees(InTwoChunks(1), InOneChunk(2), p)
  {
    hide HidingStruct, HiddenAgree, ChunkedOk, PieceAt;
    ValuePieces(InTwoChunks(1), InOneChunk(2), p, at);
    var row := p.lchunk;
    assert InTwoChunks(1).chunks[row] == HidingRow(1, row) && InOneChunk(2).chunks[0] == HidingStruct(2);
    assert SliceData(HidingRow(1, row), 0, 1) == HidingRow(1, row);
    RowsAgree(row);
  }

  lemma {:induction false} WholeSlicesDiffer()
    ensures !HiddenAgree(SliceData(HidingStruct(1), 0, 2), SliceData(HidingStruct(2), 0, 2))
  {
    hide Meaning, WellFormed, Constructible, HiddenAgree, ValidBits;
    HidingStructMeaning(1);
    HidingStructMeaning(2);
    HiddenValuesDiffer();
    var l, r := SliceData(HidingStruct(1), 0, 2), SliceData(HidingStruct(2), 0, 2);
    WholeSlice(1);
    WholeSlice(2);
    if HiddenAgree(l, r) {
      CountedAgree(l, r, HidingStruct(1), HidingStruct(2));
    }
  }

  lemma {:induction false} WholeSlice(hidden: byte)
    ensures Recount(SliceData(HidingStruct(hidden), 0, 2), HidingStruct(hidden))
  {
    hide Meaning, Constructible, LayoutOk, NullsOk, NullCount;
    HidingStructMeaning(hidden);
    PieceComparable(HidingStruct(hidden), 0, 2);
    SliceValidBits(HidingStruct(hidden), 0, 2);
  }

  lemma {:induction false} WholePieceDiffers()
    ensures ChunkedOk(InOneChunk(1)) && ChunkedOk(InOneChunk(2)) && !PiecesAgree(InOneChunk(1), InOneChunk(2))
  {
    hide Meaning, WellFormed, Constructible, HiddenAgree, NullCount, NullTotal;
    OneChunk(1);
    OneChunk(2);
    var p := Piece(0, 0, 2, 0, 0, 2);
    assert PieceAt(InOneChunk(1), InOneChunk(2), p, 0);
    HiddenValuesDiffer();
    WholeSlicesDiffer();
    assert !PieceAgrees(InOneChunk(1), InOneChunk(2), p);
  }

  /** The answer depends on the chunks: cut before the hidden value, that chunk is all null and hides nothing. */
  lemma {:induction false} ChunksMatter() returns (one: Chunked, two: Chunked, other: Chunked)
    ensures ChunkedOk(one) && ChunkedOk(two) && ChunkedOk(other) && 0 < other.length
    ensures SameColumn(one, other) && SameColumn(two, other)
    ensures !PiecesAgree(one, other) && PiecesAgree(two, other)
  {
    hide ChunkedOk, Values, PieceAgrees, PieceAt, HidingStruct, InOneChunk, InTwoChunks;
    one, two, other := InOneChunk(1), InTwoChunks(1), InOneChunk(2);
    OneChunk(1);
    OneChunk(2);
    TwoChunks(1);
    WholePieceDiffers();
    forall p: Piece, at: int | PieceAt(two, other, p, at)
      ensures PieceAgrees(two, other, p)
    {
      RowPieceAgrees(p, at);
    }
  }
}
