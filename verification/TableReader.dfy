/** Reading a table of chunked columns record by record (arrow/array/table.go). */
module TableReaders {
  import opened Arith
  import opened BitUtil
  import opened Seqs
  import opened Wrappers
  import opened ArrayData
  import opened Arrays
  import opened Compare
  import opened ChunkedArrays

  datatype Record = Record(rows: int, cols: seq<Data>)

  datatype Table = Table(rows: int, cols: seq<Chunked>)

  /** NewTable accepts the table: no column is shorter than the number of rows. */
  ghost predicate TableOk(t: Table) {
    && 0 <= t.rows <= MAX_INT
    && forall i :: 0 <= i < |t.cols| ==> ChunkedOk(t.cols[i]) && t.rows <= t.cols[i].length
  }

  function MinInt(a: int, b: int): (r: int)
    ensures r <= a && r <= b && (r == a || r == b)
  {
    if a < b then a else b
  }

  // ---------------------------------------------------------------- one column

  /** A cursor (slot, off) stands at position at: inside a chunk, or at the start of one, or behind the last. */
  ghost predicate ColumnAt(c: Chunked, slot: nat, off: nat, at: int)
    requires ChunkedOk(c)
  {
    && slot <= |c.chunks|
    && (slot < |c.chunks| ==> off < c.chunks[slot].length || off == 0)
    && (slot == |c.chunks| ==> off == 0)
    && Start(Meanings(c.chunks), slot) + off == at
  }

  function Remain(c: Chunked, slot: nat, off: nat): int
    requires slot < |c.chunks|
  {
    c.chunks[slot].length - off
  }

  lemma {:induction false} InsideColumn(c: Chunked, slot: nat, off: nat, at: int)
    requires ChunkedOk(c) && ColumnAt(c, slot, off, at) && at < c.length
    ensures slot < |c.chunks| && Comparable(c.chunks[slot]) && c.chunks[slot].dtype == c.dtype
    ensures 0 <= Remain(c, slot, off) && 0 <= at && at + Remain(c, slot, off) <= c.length
  {
    hide WellFormed, Constructible, Meaning, Flatten, Start, NullTotal;
    var ms := Meanings(c.chunks);
    FlattenLength(ms);
    StartNext(ms, slot);
    StartMonotone(ms, slot + 1, |ms|);
    assert |ms[slot]| == c.chunks[slot].length;
  }

  /** p is where a chunk starts or the last one ends. */
  ghost predicate IsBoundary(c: Chunked, p: int)
    requires ChunkedOk(c)
  {
    exists k: nat :: k <= |c.chunks| && Start(Meanings(c.chunks), k) == p
  }

  /** What one Next takes of a column: n values of the current chunk, the whole chunk unsliced. */
  ghost predicate TakenFrom(c: Chunked, d: Data, at: int, n: int)
    requires ChunkedOk(c)
  {
    && Comparable(d) && d.dtype == c.dtype && d.length == n
    && 0 <= at <= at + n <= c.length
    && Meaning(d) == Values(c)[at..at + n]
  }

  lemma {:induction false} NoBoundaryInside(c: Chunked, slot: nat, off: nat, at: int, n: int, p: int)
    requires ChunkedOk(c) && ColumnAt(c, slot, off, at) && at < c.length
    requires slot < |c.chunks| && 0 <= n <= Remain(c, slot, off)
    requires at < p < at + n
    ensures !IsBoundary(c, p)
  {
    hide WellFormed, Constructible, Meaning, Start, NullTotal, Flatten;
    var ms := Meanings(c.chunks);
    assert |ms[slot]| == c.chunks[slot].length;
    forall k: nat | k <= |c.chunks|
      ensures Start(ms, k) != p
    {
      StartNext(ms, slot);
      if k <= slot {
        StartMonotone(ms, k, slot);
      } else {
        StartMonotone(ms, slot + 1, k);
      }
    }
  }

  /** One iteration of the second loop of Next. */
  method Advance(c: Chunked, slot: nat, offset: nat, chunksz: int, ghost at: int)
    returns (slice: Data, slot': nat, offset': nat)
    requires ChunkedOk(c) && ColumnAt(c, slot, offset, at) && at < c.length
    requires slot < |c.chunks| && 0 <= chunksz <= Remain(c, slot, offset)
    ensures ColumnAt(c, slot', offset', at + chunksz) && TakenFrom(c, slice, at, chunksz)
    ensures slot' == if chunksz == Remain(c, slot, offset) then slot + 1 else slot
    ensures chunksz == Remain(c, slot, offset) ==> IsBoundary(c, at + chunksz)
  {
    hide WellFormed, Constructible, Meaning, Flatten, Start, NullTotal;
    ghost var ms := Meanings(c.chunks);
    var chunk := c.chunks[slot];
    InsideColumn(c, slot, offset, at);
    StartNext(ms, slot);
    FlattenPiece(ms, slot);
    PieceComparable(chunk, offset, offset + chunksz);
    RangeOfRange(Values(c), Start(ms, slot), |ms[slot]|, offset, chunksz);
    assert Values(c)[at..at + chunksz] == ms[slot][offset..offset + chunksz];
    if chunk.length - offset == chunksz {
      slot' := slot + 1;
      offset' := 0;
      if offset > 0 {
        slice := SliceData(chunk, offset, offset + chunksz);
      } else {
        slice := chunk;
      }
    } else {
      slot' := slot;
      offset' := offset + chunksz;
      slice := SliceData(chunk, offset, offset + chunksz);
    }
  }

  // ---------------------------------------------------------------- the reader

  /** All cursors stand at position at. */
  ghost predicate CursorsAt(cols: seq<Chunked>, slots: seq<nat>, offsets: seq<nat>, at: int) {
    && |slots| == |offsets| == |cols|
    && forall i :: 0 <= i < |cols| ==> ChunkedOk(cols[i]) && ColumnAt(cols[i], slots[i], offsets[i], at)
  }

  /** The number of chunk slots that the cursors have yet to leave. */
  ghost function SlotsLeft(cols: seq<Chunked>, slots: seq<nat>, k: nat): int
    requires k <= |cols| == |slots|
  {
    if k == 0 then 0 else SlotsLeft(cols, slots, k - 1) + (|cols[k - 1].chunks| - slots[k - 1])
  }

  lemma {:induction false} SlotsLeftDown(cols: seq<Chunked>, before: seq<nat>, after: seq<nat>, k: nat)
    requires k <= |cols| == |before| == |after|
    requires forall i :: 0 <= i < |cols| ==> before[i] <= after[i] <= |cols[i].chunks|
    ensures 0 <= SlotsLeft(cols, after, k) <= SlotsLeft(cols, before, k)
    ensures (exists i :: 0 <= i < k && before[i] < after[i]) ==> SlotsLeft(cols, after, k) < SlotsLeft(cols, before, k)
  {
    if k > 0 {
      SlotsLeftDown(cols, before, after, k - 1);
    }
  }

  /** Some column has a chunk boundary at p. */
  ghost predicate AnyBoundary(cols: seq<Chunked>, p: int)
    requires forall i :: 0 <= i < |cols| ==> ChunkedOk(cols[i])
  {
    exists i :: 0 <= i < |cols| && IsBoundary(cols[i], p)
  }

  /** The rows [at, at + n) of every column. */
  ghost predicate RecordOf(cols: seq<Chunked>, r: Record, at: int, n: int)
    requires forall i :: 0 <= i < |cols| ==> ChunkedOk(cols[i])
  {
    && r.rows == n && |r.cols| == |cols|
    && forall i :: 0 <= i < |cols| ==> TakenFrom(cols[i], r.cols[i], at, n)
  }

  lemma {:induction false} SlotsInside(cols: seq<Chunked>, slots: seq<nat>, offsets: seq<nat>, at: int)
    requires CursorsAt(cols, slots, offsets, at)
    ensures forall i :: 0 <= i < |cols| ==> slots[i] <= |cols[i].chunks|
  {
    hide ChunkedOk;
  }

  /** n rows fit in the current chunk of every column. */
  ghost predicate Fits(cols: seq<Chunked>, slots: seq<nat>, offsets: seq<nat>, n: int)
    requires |slots| == |offsets| == |cols|
  {
    forall i :: 0 <= i < |cols| ==> slots[i] < |cols[i].chunks| && n <= Remain(cols[i], slots[i], offsets[i])
  }

  lemma {:induction false} NoneInside(cols: seq<Chunked>, slots: seq<nat>, offsets: seq<nat>, at: int, n: nat, p: int)
    requires CursorsAt(cols, slots, offsets, at) && Fits(cols, slots, offsets, n)
    requires forall i :: 0 <= i < |cols| ==> at < cols[i].length
    requires at < p < at + n
    ensures !AnyBoundary(cols, p)
  {
    hide ChunkedOk, ColumnAt, IsBoundary, Remain;
    forall i | 0 <= i < |cols|
      ensures !IsBoundary(cols[i], p)
    {
      NoBoundaryInside(cols[i], slots[i], offsets[i], at, n, p);
    }
  }

  class TableReader {
    const chunks: seq<Chunked>
    const max: int
    const chksz: int
    var cur: int
    var slots: seq<nat>
    var offsets: seq<nat>
    var rec: Option<Record>

    ghost predicate Valid()
      reads this
    {
      && TableOk(Table(max, chunks)) && 0 < chksz && 0 <= cur
      && CursorsAt(chunks, slots, offsets, cur)
    }

    /** The most rows a record may have. */
    function MaxStep(): (m: int)
      ensures m <= max && m <= chksz && (m == max || m == chksz)
    {
      MinInt(max, chksz)
    }

    ghost function Left(): int
      reads this
      requires |slots| == |chunks|
    {
      SlotsLeft(chunks, slots, |chunks|)
    }

    constructor (tbl: Table, chunkSize: int)
      requires TableOk(tbl)
      ensures Valid() && cur == 0 && chunks == tbl.cols && max == tbl.rows && rec == None
      ensures chksz == if chunkSize <= 0 then MAX_INT else chunkSize
    {
      chunks := tbl.cols;
      max := tbl.rows;
      chksz := if chunkSize <= 0 then MAX_INT else chunkSize;
      cur := 0;
      slots := seq(|tbl.cols|, i => 0);
      offsets := seq(|tbl.cols|, i => 0);
      rec := None;
    }

    /** The first loop of Next: the rows left in the current chunk of every column. */
    method Smallest() returns (chunksz: int)
      requires Valid() && cur < max
      ensures 0 <= chunksz <= MaxStep()
      ensures Fits(chunks, slots, offsets, chunksz)
      ensures chunksz == MaxStep() ||
        exists i :: 0 <= i < |chunks| && slots[i] < |chunks[i].chunks|
          && chunksz == Remain(chunks[i], slots[i], offsets[i])
    {
      hide ChunkedOk, ColumnAt, Comparable, Remain;
      chunksz := MinInt(max, chksz);
      ghost var least := 0;
      for i := 0 to |chunks|
        invariant 0 <= chunksz <= MaxStep()
        invariant forall k :: 0 <= k < i ==>
          slots[k] < |chunks[k].chunks| && chunksz <= Remain(chunks[k], slots[k], offsets[k])
        invariant chunksz == MaxStep() ||
          (0 <= least < i && slots[least] < |chunks[least].chunks|
           && chunksz == Remain(chunks[least], slots[least], offsets[least]))
      {
        InsideColumn(chunks[i], slots[i], offsets[i], cur);
        var remain := Remain(chunks[i], slots[i], offsets[i]);
        if remain < chunksz {
          chunksz := remain;
          least := i;
        }
      }
    }

    /** The second loop of Next: slice every column, and move every cursor. */
    method TakeBatch(chunksz: int) returns (batch: seq<Data>)
      requires Valid() && cur < max && 0 <= chunksz && Fits(chunks, slots, offsets, chunksz)
      modifies `slots, `offsets
      ensures CursorsAt(chunks, slots, offsets, cur + chunksz)
      ensures RecordOf(chunks, Record(chunksz, batch), cur, chunksz)
      ensures 0 <= Left() <= old(Left())
      ensures forall k :: 0 <= k < |chunks| && chunksz == Remain(chunks[k], old(slots)[k], old(offsets)[k]) ==>
        IsBoundary(chunks[k], cur + chunksz) && Left() < old(Left())
    {
      hide ChunkedOk, TakenFrom, IsBoundary, Start, Remain, ColumnAt, SlotsLeft;
      batch := [];
      for i := 0 to |chunks|
        invariant |slots| == |offsets| == |chunks| && |batch| == i
        invariant forall k :: 0 <= k < i ==> ColumnAt(chunks[k], slots[k], offsets[k], cur + chunksz)
        invariant forall k :: 0 <= k < i ==> TakenFrom(chunks[k], batch[k], cur, chunksz)
        invariant forall k :: 0 <= k < i ==>
          slots[k] == old(slots)[k] + if chunksz == Remain(chunks[k], old(slots)[k], old(offsets)[k]) then 1 else 0
        invariant forall k :: 0 <= k < i && chunksz == Remain(chunks[k], old(slots)[k], old(offsets)[k]) ==>
          IsBoundary(chunks[k], cur + chunksz)
        invariant forall k :: i <= k < |chunks| ==> slots[k] == old(slots)[k] && offsets[k] == old(offsets)[k]
      {
        var slice, slot, offset := Advance(chunks[i], slots[i], offsets[i], chunksz, cur);
        slots := slots[i := slot];
        offsets := offsets[i := offset];
        batch := batch + [slice];
      }
      SlotsInside(chunks, slots, offsets, cur + chunksz);
      SlotsLeftDown(chunks, old(slots), slots, |chunks|);
    }

    /**
     Reads the next rows while there are rows left: as many as the table has rows,
     or as the chunk size says, unless a chunk of some column ends before.
     */
    method Next() returns (more: bool)
      requires Valid()
      modifies this
      ensures Valid()
      ensures more <==> old(cur) < max
      ensures !more ==> cur == old(cur) && rec == old(rec)
      ensures more ==> rec.Some? && RecordOf(chunks, rec.value, old(cur), cur - old(cur))
      ensures more ==> 0 <= cur - old(cur) <= max && cur - old(cur) <= chksz
      ensures more ==> cur - old(cur) == max || cur - old(cur) == chksz || AnyBoundary(chunks, cur)
      ensures more ==> forall p :: old(cur) < p < cur ==> !AnyBoundary(chunks, p)
      ensures more ==> 0 <= Left() <= old(Left()) && (cur == old(cur) ==> Left() < old(Left()))
    {
      hide ChunkedOk, ColumnAt, TakenFrom, IsBoundary, SlotsLeft;
      if cur >= max {
        return false;
      }
      var chunksz := Smallest();
      ghost var at, was, offs := cur, slots, offsets;
      forall p | at < p < at + chunksz
        ensures !AnyBoundary(chunks, p)
      {
        NoneInside(chunks, was, offs, at, chunksz, p);
      }
      var batch := TakeBatch(chunksz);
      cur := cur + chunksz;
      rec := Some(Record(chunksz, batch));
      more := true;
    }
  }

  // ---------------------------------------------------------------- whole runs

  /** The last position up to p at which some column has a chunk boundary; 0 is one. */
  ghost function LastBoundary(cols: seq<Chunked>, p: nat): (b: nat)
    requires forall i :: 0 <= i < |cols| ==> ChunkedOk(cols[i])
    ensures b <= p
  {
    if p == 0 || AnyBoundary(cols, p) then p else LastBoundary(cols, p - 1)
  }

  lemma {:induction false} SameLastBoundary(cols: seq<Chunked>, q: nat, p: nat)
    requires forall i :: 0 <= i < |cols| ==> ChunkedOk(cols[i])
    requires q <= p && forall x :: q < x <= p ==> !AnyBoundary(cols, x)
    ensures LastBoundary(cols, p) == LastBoundary(cols, q)
    decreases p
  {
    hide ChunkedOk, AnyBoundary;
    if q < p {
      SameLastBoundary(cols, q, p - 1);
    }
  }

  /** From the last boundary on, records of MaxStep rows end exactly at the position. */
  ghost predicate Aligned(cols: seq<Chunked>, at: nat, m: int)
    requires forall i :: 0 <= i < |cols| ==> ChunkedOk(cols[i])
  {
    m > 0 ==> (at - LastBoundary(cols, at)) % m == 0
  }

  /** What one Next does to alignment: it keeps it, and it passes max only when max is not aligned. */
  lemma {:induction false} StepAligned(cols: seq<Chunked>, at: nat, next: nat, max: nat, m: int)
    requires forall i :: 0 <= i < |cols| ==> ChunkedOk(cols[i])
    requires at < max && at <= next <= at + m && 0 < m
    requires next == at + m || AnyBoundary(cols, next)
    requires forall p :: at < p < next ==> !AnyBoundary(cols, p)
    requires Aligned(cols, at, m)
    ensures Aligned(cols, next, m)
    ensures max < next ==> !Aligned(cols, max, m)
  {
    hide ChunkedOk, AnyBoundary;
    var from := LastBoundary(cols, at);
    if next > at && !AnyBoundary(cols, next) {
      SameLastBoundary(cols, at, next);
      PastMultiple(at - from, m, m);
    } else {
      PastMultiple(0, m, 0);
    }
    if max < next {
      SameLastBoundary(cols, at, max);
      PastMultiple(at - from, m, max - at);
    }
  }

  function Rows(records: seq<Record>): int {
    if records == [] then 0 else Rows(records[..|records| - 1]) + records[|records| - 1].rows
  }

  /**
   The record from row at to row next: not more rows than the table has, nor than
   a positive chunk size, and no chunk boundary inside; one of the three ends it.
   */
  ghost predicate RecordEnds(cols: seq<Chunked>, rows: int, chunkSize: int, at: int, next: int)
    requires forall i :: 0 <= i < |cols| ==> ChunkedOk(cols[i])
  {
    && 0 <= next - at <= rows && (0 < chunkSize ==> next - at <= chunkSize)
    && (next - at == rows || (0 < chunkSize && next - at == chunkSize) || AnyBoundary(cols, next))
    && forall p :: at < p < next ==> !AnyBoundary(cols, p)
  }

  /** Column i of every record. */
  ghost predicate HaveColumn(records: seq<Record>, i: nat) {
    forall k :: 0 <= k < |records| ==> i < |records[k].cols| && Comparable(records[k].cols[i])
  }

  ghost function ColumnOf(records: seq<Record>, i: nat): (r: seq<Data>)
    requires HaveColumn(records, i)
    ensures |r| == |records| && AllComparable(r)
  {
    seq(|records|, k requires 0 <= k < |records| && HaveColumn(records, i) => records[k].cols[i])
  }

  /** The records hold the first n rows of the column, in order. */
  ghost predicate ColumnRead(records: seq<Record>, cols: seq<Chunked>, i: nat, n: int)
    requires i < |cols| && ChunkedOk(cols[i])
  {
    && HaveColumn(records, i) && 0 <= n <= cols[i].length
    && ValuesOf(ColumnOf(records, i)) == Values(cols[i])[..n]
  }

  lemma {:induction false} ReadMore(records: seq<Record>, cols: seq<Chunked>, i: nat, at: int, r: Record, n: int)
    requires i < |cols| && ChunkedOk(cols[i]) && ColumnRead(records, cols, i, at)
    requires i < |r.cols| && TakenFrom(cols[i], r.cols[i], at, n)
    ensures ColumnRead(records + [r], cols, i, at + n)
  {
    hide WellFormed, Constructible, Meaning, ChunkedOk, Values, Flatten;
    var before, more := ColumnOf(records, i), ColumnOf(records + [r], i);
    assert Meanings(more) == Meanings(before) + [Meaning(r.cols[i])];
    FlattenSnoc(Meanings(before), Meaning(r.cols[i]));
    assert Values(cols[i])[..at + n] == Values(cols[i])[..at] + Values(cols[i])[at..at + n];
  }

  /** So end the records one after the other. */
  ghost predicate RecordsEnd(records: seq<Record>, tbl: Table, chunkSize: int)
    requires TableOk(tbl)
  {
    forall k :: 0 <= k < |records| ==>
      RecordEnds(tbl.cols, tbl.rows, chunkSize, Rows(records[..k]), Rows(records[..k + 1]))
  }

  lemma {:induction false} OneMoreRecord(records: seq<Record>, tbl: Table, chunkSize: int, r: Record, at: int,
    next: int)
    requires TableOk(tbl) && RecordsEnd(records, tbl, chunkSize)
    requires Rows(records) == at && r.rows == next - at
    requires 0 <= next - at <= tbl.rows && next - at <= (if chunkSize <= 0 then MAX_INT else chunkSize)
    requires next - at == tbl.rows || next - at == (if chunkSize <= 0 then MAX_INT else chunkSize)
      || AnyBoundary(tbl.cols, next)
    requires forall p :: at < p < next ==> !AnyBoundary(tbl.cols, p)
    ensures RecordsEnd(records + [r], tbl, chunkSize) && Rows(records + [r]) == next
  {
    hide ChunkedOk, AnyBoundary;
    var more := records + [r];
    assert more[..|records|] == records && more[..|records| + 1] == more;
    forall k | 0 <= k < |more|
      ensures RecordEnds(tbl.cols, tbl.rows, chunkSize, Rows(more[..k]), Rows(more[..k + 1]))
    {
      if k < |records| {
        assert more[..k] == records[..k] && more[..k + 1] == records[..k + 1];
        assert RecordEnds(tbl.cols, tbl.rows, chunkSize, Rows(records[..k]), Rows(records[..k + 1]));
      }
    }
  }

  /** The loop of a reader's client: for tr.Next() { use tr.Record() }. */
  method ReadAll(tbl: Table, chunkSize: int) returns (records: seq<Record>)
    requires TableOk(tbl)
    ensures tbl.rows <= Rows(records)
    ensures forall i :: 0 <= i < |tbl.cols| ==> ColumnRead(records, tbl.cols, i, Rows(records))
    ensures RecordsEnd(records, tbl, chunkSize)
    ensures Rows(records) == tbl.rows <==>
      Aligned(tbl.cols, tbl.rows, if chunkSize <= 0 || tbl.rows < chunkSize then tbl.rows else chunkSize)
  {
    hide ChunkedOk, ColumnAt, AnyBoundary, Aligned, ColumnRead, TakenFrom, RecordEnds, Rows;
    var tr := new TableReader(tbl, chunkSize);
    records := [];
    StartReading(tbl, tr.MaxStep());
    while true
      invariant fresh(tr) && tr.Valid() && tr.chunks == tbl.cols && tr.max == tbl.rows
      invariant tr.chksz == if chunkSize <= 0 then MAX_INT else chunkSize
      invariant tr.cur == Rows(records)
      invariant forall i :: 0 <= i < |tbl.cols| ==> ColumnRead(records, tbl.cols, i, tr.cur)
      invariant RecordsEnd(records, tbl, chunkSize)
      invariant Aligned(tbl.cols, tr.cur, tr.MaxStep())
      invariant tbl.rows < tr.cur ==> !Aligned(tbl.cols, tbl.rows, tr.MaxStep())
      decreases if tr.cur < tr.max then tr.max - tr.cur else 0, tr.Left()
    {
      ghost var at := tr.cur;
      var more := tr.Next();
      if !more {
        break;
      }
      StepAligned(tbl.cols, at, tr.cur, tr.max, tr.MaxStep());
      forall i | 0 <= i < |tbl.cols|
        ensures ColumnRead(records + [tr.rec.value], tbl.cols, i, tr.cur)
      {
        ReadMore(records, tbl.cols, i, at, tr.rec.value, tr.cur - at);
      }
      OneMoreRecord(records, tbl, chunkSize, tr.rec.value, at, tr.cur);
      records := records + [tr.rec.value];
    }
  }

  lemma {:induction false} StartReading(tbl: Table, m: int)
    requires TableOk(tbl)
    ensures forall i :: 0 <= i < |tbl.cols| ==> ColumnRead([], tbl.cols, i, 0)
    ensures Aligned(tbl.cols, 0, m) && Rows([]) == 0
  {
  }

  /** A column of exactly as many values as there are rows ends the reading exactly there. */
  lemma {:induction false} ExactColumnAligned(tbl: Table, i: nat, m: int)
    requires TableOk(tbl) && i < |tbl.cols| && tbl.cols[i].length == tbl.rows
    ensures Aligned(tbl.cols, tbl.rows, m)
  {
    hide WellFormed, Constructible, Meaning, NullTotal, Start, Flatten;
    var c := tbl.cols[i];
    var ms := Meanings(c.chunks);
    FlattenLength(ms);
    assert Start(ms, |c.chunks|) == c.length;
    assert IsBoundary(c, tbl.rows);
    assert AnyBoundary(tbl.cols, tbl.rows);
    if m > 0 {
      PastMultiple(0, m, 0);
    }
  }

  /** A table of three rows over one column of four nulls. */
  function LongTable(): Table {
    Table(3, [Chunked(NullType, [Data(NullType, 4, 0, 4, [None], [])], 4, 4)])
  }

  lemma {:induction false} LongDataOk(d: Data)
    requires d == Data(NullType, 4, 0, 4, [None], [])
    ensures Comparable(d) && NullCount(d) == 4
  {
    CountNone(ValidBits(d));
    assert LayoutOk(d);
  }

  lemma {:induction false} LongColumnOk(c: Chunked, d: Data)
    requires d == Data(NullType, 4, 0, 4, [None], []) && c == Chunked(NullType, [d], 4, 4)
    ensures ChunkedOk(c)
  {
    hide WellFormed, Constructible, NullCount, Meaning;
    LongDataOk(d);
    StartNext(Meanings(c.chunks), 0);
    FlattenLength(Meanings(c.chunks));
    assert NullTotal(c.chunks, 1) == NullTotal(c.chunks, 0) + NullCount(d);
  }

  lemma {:induction false} OneChunkBoundaries(c: Chunked, p: int)
    requires ChunkedOk(c) && |c.chunks| == 1 && 0 < p < c.chunks[0].length
    ensures !IsBoundary(c, p)
  {
    hide WellFormed, Constructible, NullTotal, Meaning;
    StartNext(Meanings(c.chunks), 0);
  }

  /** With records of two rows, reading that table gives four rows instead of three. */
  lemma {:induction false} LongColumnOverruns()
    ensures TableOk(LongTable()) && !Aligned(LongTable().cols, 3, 2)
  {
    hide ChunkedOk, IsBoundary;
    var cols := LongTable().cols;
    LongColumnOk(cols[0], cols[0].chunks[0]);
    forall p | 0 < p <= 3
      ensures !AnyBoundary(cols, p)
    {
      OneChunkBoundaries(cols[0], p);
    }
    SameLastBoundary(cols, 0, 3);
  }
}
