/** The buffer-level parts of arrow/array/concat.go: bitmaps, value bytes and offsets. */
module ConcatBuffers {
  import opened Bits
  import opened Bitmaps
  import opened BitUtil
  import opened Int32View
  import opened Seqs
  import opened Wrappers
  import opened ArrayData

  // ---------------------------------------------------------------- addOvf

  const TWO62: int := 0x4000_0000_0000_0000
  const TWO63: int := 0x8000_0000_0000_0000
  const TWO64: int := 0x1_0000_0000_0000_0000

  /** Bit 62 or 63 of a number in 64-bit two's complement. */
  predicate HighBit(v: int, weight: int)
    requires weight > 0
  {
    v / weight % 2 == 1
  }

  /** Addition of two Go ints: modulo 2^64, in two's complement. */
  function WrapAdd(x: int, y: int): int {
    var u := (x + y) % TWO64;
    if u > MAX_INT then u - TWO64 else u
  }

  /**
   addOvf: the shift by UintSize-2 leaves bits 62 and 63 of the carry formula,
   and the result is 1 when the first is set and the second (the sign) is not.
   */
  function AddOvf(x: int, y: int): (int, bool) {
    var sum := WrapAdd(x, y);
    var carry62 := (HighBit(x, TWO62) && HighBit(y, TWO62)) || ((HighBit(x, TWO62) || HighBit(y, TWO62))
      && !HighBit(sum, TWO62));
    var carry63 := (HighBit(x, TWO63) && HighBit(y, TWO63)) || ((HighBit(x, TWO63) || HighBit(y, TWO63))
      && !HighBit(sum, TWO63));
    (sum, carry62 && !carry63)
  }

  /** The carry formula reports exactly the sums that are too large; one that is too small wraps unnoticed. */
  lemma {:induction false} AddOvfExact(x: int, y: int)
    requires -0x8000_0000_0000_0000 <= x <= 0x7fff_ffff_ffff_ffff
    requires -0x8000_0000_0000_0000 <= y <= 0x7fff_ffff_ffff_ffff
    ensures AddOvf(x, y).1 <==> x + y > 0x7fff_ffff_ffff_ffff
    ensures -0x8000_0000_0000_0000 <= x + y <= 0x7fff_ffff_ffff_ffff ==> AddOvf(x, y).0 == x + y
  {
    HighBits(x);
    HighBits(y);
    HighBits(WrapAdd(x, y));
  }

  /** The two highest bits cut the range of ints into quarters. */
  lemma {:induction false} HighBits(v: int)
    requires -TWO63 <= v < TWO63
    ensures HighBit(v, TWO63) <==> v < 0
    ensures HighBit(v, TWO62) <==> v >= TWO62 || -TWO62 <= v < 0
  {
    var q := v / TWO62;
    assert q == if v >= TWO62 then 1 else if v >= 0 then 0 else if v >= -TWO62 then -1 else -2;
    assert v / TWO63 == if v >= 0 then 0 else -1;
  }

  // ---------------------------------------------------------------- concatBitmaps

  datatype Rng = Rng(offset: int, len: int)

  datatype BitmapRange = BitmapRange(data: Buffer, rng: Rng)

  ghost predicate BitmapRangeOk(b: BitmapRange) {
    && 0 <= b.rng.offset && 0 <= b.rng.len <= MAX_INT
    && (b.data.Some? ==> InRange(b.data.value, b.rng.offset, b.rng.len))
  }

  /** The bits a range stands for; a nil bitmap stands for ones. */
  ghost function RangeBits(b: BitmapRange): (r: seq<bool>)
    requires BitmapRangeOk(b)
    ensures |r| == b.rng.len
  {
    if b.data.None? then Repeat(true, b.rng.len) else BitRange(b.data.value, b.rng.offset, b.rng.len)
  }

  ghost function AllRangeBits(bitmaps: seq<BitmapRange>): (r: seq<seq<bool>>)
    requires forall i :: 0 <= i < |bitmaps| ==> BitmapRangeOk(bitmaps[i])
    ensures |r| == |bitmaps| && forall i :: 0 <= i < |r| ==> |r[i]| == bitmaps[i].rng.len
  {
    seq(|bitmaps|, i requires 0 <= i < |bitmaps| => RangeBits(bitmaps[i]))
  }

  lemma {:induction false} OverwriteExtends(s: seq<byte>, n: nat, bits: seq<bool>)
    requires InRange(s, 0, n + |bits|)
    ensures BitRange(Overwrite(s, n, bits), 0, n + |bits|) == BitRange(s, 0, n) + bits
  {
    hide BitAt, Overwrite;
    var t := Overwrite(s, n, bits);
    forall j | 0 <= j < n + |bits|
      ensures BitRange(t, 0, n + |bits|)[j] == (BitRange(s, 0, n) + bits)[j]
    {
      OverwriteBits(s, n, bits, j);
    }
  }

  method ConcatBitmaps(bitmaps: seq<BitmapRange>) returns (r: Result<seq<byte>>)
    requires forall i :: 0 <= i < |bitmaps| ==> BitmapRangeOk(bitmaps[i])
    ensures r.Success? <==> |Flatten(AllRangeBits(bitmaps))| <= MAX_INT
    ensures r.Success? ==> InRange(r.value, 0, |Flatten(AllRangeBits(bitmaps))|)
    ensures r.Success? ==> |r.value| == (|Flatten(AllRangeBits(bitmaps))| + 7) / 8
    ensures r.Success? ==> BitRange(r.value, 0, |Flatten(AllRangeBits(bitmaps))|) == Flatten(AllRangeBits(bitmaps))
  {
    hide RangeBits, BitRange, Overwrite, AddOvf, Flatten, Repeat, Start;
    ghost var pieces := AllRangeBits(bitmaps);
    assert Start(pieces, 0) == 0;
    FlattenLength(pieces);
    var outlen := 0;
    for i := 0 to |bitmaps|
      invariant outlen == Start(pieces, i) <= MAX_INT
    {
      AddOvfExact(outlen, bitmaps[i].rng.len);
      StartNext(pieces, i);
      var (sum, overflow) := AddOvf(outlen, bitmaps[i].rng.len);
      outlen := sum;
      if overflow {
        StartMonotone(pieces, i + 1, |pieces|);
        return Failure("length overflow when concatenating arrays");
      }
    }

    var out := new byte[BytesForBits(outlen)];
    var offset := 0;
    StartsEmpty(out[..], pieces);
    for i := 0 to |bitmaps|
      invariant offset == Start(pieces, i) <= outlen
      invariant BitRange(out[..], 0, offset) == Flatten(pieces[..i])
    {
      StartNext(pieces, i);
      StartMonotone(pieces, i + 1, |pieces|);
      ghost var before := out[..];
      var n := bitmaps[i].rng.len;
      AppendPiece(before, offset, pieces, i);
      RangeBitsOf(bitmaps, i);
      if bitmaps[i].data.None? {
        SetBitsTo(out, offset, n, true);
      } else {
        CopyBitmap(bitmaps[i].data.value, bitmaps[i].rng.offset, n, out, offset);
      }
      offset := offset + n;
    }
    assert pieces[..|bitmaps|] == pieces;
    r := Success(out[..]);
  }

  lemma {:induction false} StartsEmpty(s: seq<byte>, pieces: seq<seq<bool>>)
    ensures BitRange(s, 0, 0) == Flatten(pieces[..0])
  {
  }

  lemma {:induction false} RangeBitsOf(bitmaps: seq<BitmapRange>, i: nat)
    requires i < |bitmaps| && forall k :: 0 <= k < |bitmaps| ==> BitmapRangeOk(bitmaps[k])
    ensures AllRangeBits(bitmaps)[i] == if bitmaps[i].data.None? then Repeat(true, bitmaps[i].rng.len)
      else BitRange(bitmaps[i].data.value, bitmaps[i].rng.offset, bitmaps[i].rng.len)
  {
    hide BitRange, Repeat;
  }

  lemma {:induction false} AppendPiece(s: seq<byte>, n: nat, pieces: seq<seq<bool>>, i: nat)
    requires i < |pieces| && InRange(s, 0, n + |pieces[i]|)
    requires BitRange(s, 0, n) == Flatten(pieces[..i])
    ensures BitRange(Overwrite(s, n, pieces[i]), 0, n + |pieces[i]|) == Flatten(pieces[..i + 1])
  {
    hide BitRange, Overwrite, Flatten;
    OverwriteExtends(s, n, pieces[i]);
    FlattenSnoc(pieces[..i], pieces[i]);
    assert pieces[..i + 1] == pieces[..i] + [pieces[i]];
  }

  // ---------------------------------------------------------------- concatBuffers

  /** A Go byte slice: the bytes [from, to) of base, which goes on beyond to. */
  datatype Slice = Slice(base: seq<byte>, from: nat, to: nat) {
    ghost predicate Ok() {
      from <= to <= |base|
    }

    function Bytes(): (s: seq<byte>)
      requires Ok()
      ensures |s| == to - from
    {
      base[from..to]
    }
  }

  ghost function AllBytes(bufs: seq<Slice>): (r: seq<seq<byte>>)
    requires forall i :: 0 <= i < |bufs| ==> bufs[i].Ok()
    ensures |r| == |bufs|
  {
    seq(|bufs|, i requires 0 <= i < |bufs| => bufs[i].Bytes())
  }

  /** copy(out[at:], b) */
  method CopyPiece(out: array<byte>, at: nat, b: seq<byte>)
    requires at + |b| <= out.Length
    modifies out
    ensures out[..at + |b|] == old(out[..at]) + b
  {
    forall k | 0 <= k < |b| {
      out[at + k] := b[k];
    }
    assert out[..at] == old(out[..at]) && out[at..at + |b|] == b;
  }

  method ConcatBytes(bufs: seq<Slice>) returns (r: seq<byte>)
    requires forall i :: 0 <= i < |bufs| ==> bufs[i].Ok()
    ensures r == Flatten(AllBytes(bufs))
  {
    hide Flatten, Start;
    ghost var pieces := AllBytes(bufs);
    assert Start(pieces, 0) == 0;
    FlattenLength(pieces);
    var outLen := 0;
    for i := 0 to |bufs|
      invariant outLen == Start(pieces, i)
    {
      StartNext(pieces, i);
      outLen := outLen + (bufs[i].to - bufs[i].from);
    }
    var out := new byte[outLen];
    var at := 0;
    EmptyPieces(pieces);
    for i := 0 to |bufs|
      invariant at == Start(pieces, i) <= outLen
      invariant out[..at] == Flatten(pieces[..i])
    {
      StartNext(pieces, i);
      StartMonotone(pieces, i + 1, |pieces|);
      FlattenSnoc(pieces[..i], pieces[i]);
      assert pieces[..i + 1] == pieces[..i] + [pieces[i]];
      CopyPiece(out, at, bufs[i].Bytes());
      at := at + (bufs[i].to - bufs[i].from);
    }
    assert pieces[..|bufs|] == pieces && out[..at] == out[..];
    r := out[..];
  }

  lemma {:induction false} EmptyPieces<T>(pieces: seq<seq<T>>)
    ensures Flatten(pieces[..0]) == []
  {
  }

  // ---------------------------------------------------------------- concatOffsets

  /** The offsets of one input: none, or one more than it has slots. */
  type Run = seq<int>

  ghost predicate RunOk(run: Run) {
    && |run| != 1
    && (forall i :: 0 <= i < |run| ==> 0 <= run[i] <= MAX_INT32)
    && forall i, j :: 0 <= i <= j < |run| ==> run[i] <= run[j]
  }

  function SlotCount(run: Run): nat {
    if run == [] then 0 else |run| - 1
  }

  /** The range of values that a run spans. */
  function RunRange(run: Run): Rng {
    if run == [] then Rng(0, 0) else Rng(run[0], run[|run| - 1] - run[0])
  }

  /** Where the values of run k start in the concatenated values. */
  ghost function Base(runs: seq<Run>, k: nat): int
    requires k <= |runs|
  {
    if k == 0 then 0 else Base(runs, k - 1) + RunRange(runs[k - 1]).len
  }

  lemma {:induction false} BaseNext(runs: seq<Run>, i: nat)
    requires i < |runs|
    ensures Base(runs, i + 1) == Base(runs, i) + RunRange(runs[i]).len
  {
    hide RunRange;
  }

  /** The offsets of run k moved to its base, without its last one. */
  ghost function Rebased(runs: seq<Run>, k: nat): (r: seq<int>)
    requires k < |runs|
    ensures |r| == SlotCount(runs[k])
  {
    seq(SlotCount(runs[k]), j requires 0 <= j < SlotCount(runs[k]) => Base(runs, k) + runs[k][j] - runs[k][0])
  }

  ghost function RebasedRuns(runs: seq<Run>): (r: seq<seq<int>>)
    ensures |r| == |runs| && forall k :: 0 <= k < |r| ==> |r[k]| == SlotCount(runs[k])
  {
    seq(|runs|, k requires 0 <= k < |runs| => Rebased(runs, k))
  }

  ghost function JoinedOffsets(runs: seq<Run>): seq<int> {
    Flatten(RebasedRuns(runs)) + [Base(runs, |runs|)]
  }

  ghost predicate RunsOk(runs: seq<Run>) {
    forall k :: 0 <= k < |runs| ==> RunOk(runs[k])
  }

  lemma {:induction false} BaseMonotone(runs: seq<Run>, j: nat, k: nat)
    requires RunsOk(runs) && j <= k <= |runs|
    ensures 0 <= Base(runs, j) <= Base(runs, k)
    decreases k
  {
    if 0 < k {
      BaseMonotone(runs, if j < k then j else k - 1, k - 1);
      assert RunOk(runs[k - 1]);
    }
  }

  /** The offset stored where run k starts, or ends when it has no slots, is its base. */
  lemma {:induction false} OffsetAtStart(runs: seq<Run>, k: nat)
    requires RunsOk(runs) && k <= |runs|
    ensures Start(RebasedRuns(runs), k) < |JoinedOffsets(runs)|
    ensures JoinedOffsets(runs)[Start(RebasedRuns(runs), k)] == Base(runs, k)
    decreases |runs| - k
  {
    hide Flatten, Start;
    var pieces := RebasedRuns(runs);
    FlattenLength(pieces);
    StartMonotone(pieces, k, |runs|);
    if k < |runs| {
      assert RunOk(runs[k]);
      if runs[k] == [] {
        StartNext(pieces, k);
        OffsetAtStart(runs, k + 1);
      } else {
        FlattenAt(pieces, k, 0);
      }
    }
  }

  /** Every offset of every run, its last included, is found at its place, moved to the run's base. */
  lemma {:induction false} JoinedOffsetAt(runs: seq<Run>, k: nat, j: nat)
    requires RunsOk(runs) && k < |runs| && j < |runs[k]|
    ensures Start(RebasedRuns(runs), k) + j < |JoinedOffsets(runs)|
    ensures JoinedOffsets(runs)[Start(RebasedRuns(runs), k) + j] == Base(runs, k) + runs[k][j] - runs[k][0]
  {
    hide Flatten, Start, Base, RunOk, RunsOk;
    var pieces := RebasedRuns(runs);
    BaseNext(runs, k);
    if j < SlotCount(runs[k]) {
      FlattenAt(pieces, k, j);
    } else {
      StartNext(pieces, k);
      OffsetAtStart(runs, k + 1);
    }
  }

  /** The joined offsets start at 0, never go down, and end at the sum of the range lengths. */
  lemma {:induction false} JoinedOffsetsOk(runs: seq<Run>)
    requires RunsOk(runs)
    ensures |JoinedOffsets(runs)| == Start(RebasedRuns(runs), |runs|) + 1
    ensures JoinedOffsets(runs)[0] == 0
    ensures forall m, n :: 0 <= m <= n < |JoinedOffsets(runs)| ==> JoinedOffsets(runs)[m] <= JoinedOffsets(runs)[n]
    ensures JoinedOffsets(runs)[|JoinedOffsets(runs)| - 1] == Base(runs, |runs|)
  {
    hide JoinedOffsets;
    JoinedEnds(runs);
    forall m, n | 0 <= m <= n < |JoinedOffsets(runs)|
      ensures JoinedOffsets(runs)[m] <= JoinedOffsets(runs)[n]
    {
      JoinedMonotone(runs, m, n);
    }
  }

  lemma {:induction false} JoinedEnds(runs: seq<Run>)
    requires RunsOk(runs)
    ensures |JoinedOffsets(runs)| == Start(RebasedRuns(runs), |runs|) + 1
    ensures JoinedOffsets(runs)[0] == 0
    ensures JoinedOffsets(runs)[|JoinedOffsets(runs)| - 1] == Base(runs, |runs|)
  {
    hide Flatten;
    FlattenLength(RebasedRuns(runs));
    OffsetAtStart(runs, 0);
  }

  lemma {:induction false} JoinedMonotone(runs: seq<Run>, m: nat, n: nat)
    requires RunsOk(runs) && m <= n < |JoinedOffsets(runs)|
    ensures JoinedOffsets(runs)[m] <= JoinedOffsets(runs)[n]
    decreases n
  {
    hide JoinedOffsets;
    if m < n {
      JoinedMonotone(runs, m, n - 1);
      JoinedEnds(runs);
      FlattenLength(RebasedRuns(runs));
      var k, j := Locate(RebasedRuns(runs), n - 1);
      assert RunOk(runs[k]);
      JoinedOffsetAt(runs, k, j);
      JoinedOffsetAt(runs, k, j + 1);
    }
  }

  /** The offsets a buffer slice stands for: its own and the one just past its end. */
  function RunOf(b: Slice): Run
    requires b.Ok() && (b.from < b.to ==> b.to + 4 <= |b.base|)
  {
    if b.from == b.to then [] else Int32s(b.base[b.from..b.to + 4])
  }

  ghost predicate OffsetSliceOk(b: Slice) {
    && b.Ok() && (b.to - b.from) % 4 == 0
    && (b.from < b.to ==> b.to + 4 <= |b.base|)
    && RunOk(RunOf(b))
  }

  ghost function RunsOf(buffers: seq<Slice>): (r: seq<Run>)
    requires forall i :: 0 <= i < |buffers| ==> OffsetSliceOk(buffers[i])
    ensures |r| == |buffers| && RunsOk(r)
  {
    seq(|buffers|, i requires 0 <= i < |buffers| && OffsetSliceOk(buffers[i]) => RunOf(buffers[i]))
  }

  ghost function RangesOf(runs: seq<Run>): (r: seq<Rng>)
    ensures |r| == |runs|
  {
    seq(|runs|, k requires 0 <= k < |runs| => RunRange(runs[k]))
  }

  /** The ranges of the first i runs. */
  ghost predicate RangesSoFar(runs: seq<Run>, ranges: seq<Rng>, i: nat) {
    RunsOk(runs) && |ranges| == i <= |runs| && forall k :: 0 <= k < i ==> ranges[k] == RunRange(runs[k])
  }

  lemma {:induction false} NoRanges(runs: seq<Run>)
    requires RunsOk(runs)
    ensures RangesSoFar(runs, [], 0) && Base(runs, 0) == 0
  {
  }

  lemma {:induction false} OneMoreRange(runs: seq<Run>, ranges: seq<Rng>, i: nat)
    requires RunsOk(runs) && i < |runs| && RangesSoFar(runs, ranges, i)
    ensures RangesSoFar(runs, ranges + [RunRange(runs[i])], i + 1)
  {
    hide RunRange, RunOk;
  }

  lemma {:induction false} AllRanges(runs: seq<Run>, ranges: seq<Rng>)
    requires RunsOk(runs) && RangesSoFar(runs, ranges, |runs|)
    ensures ranges == RangesOf(runs)
  {
    hide RunRange, RunOk;
  }

  method ConcatOffsets(buffers: seq<Slice>) returns (r: Result<(seq<byte>, seq<Rng>)>)
    requires forall i :: 0 <= i < |buffers| ==> OffsetSliceOk(buffers[i])
    ensures r.Success? <==> Base(RunsOf(buffers), |buffers|) <= MAX_INT32
    ensures r.Success? ==> Int32s(r.value.0) == JoinedOffsets(RunsOf(buffers))
    ensures r.Success? ==> r.value.1 == RangesOf(RunsOf(buffers))
  {
    hide Int32s, Int32Bytes, JoinedPrefix, Rebased, RunOk, RunsOk, RunOf, RunsOf, RangesSoFar, Base;
    ghost var runs := RunsOf(buffers);
    RunsOfOk(buffers);
    var outLen := CountSlots(buffers);
    var dst := new int[outLen + 1];
    var valuesRanges: seq<Rng> := [];
    var nextOffset, nextElem := 0, 0;
    JoinedPrefixEmpty(runs);
    NoRanges(runs);
    for i := 0 to |buffers|
      invariant nextOffset == Base(runs, i) && 0 <= nextOffset <= MAX_INT32
      invariant nextElem == |JoinedPrefix(runs, i)| <= outLen
      invariant RangesSoFar(runs, valuesRanges, i)
      invariant dst[..nextElem] == JoinedPrefix(runs, i)
    {
      var b := buffers[i];
      RunsOfAt(buffers, i);
      RunLength(b);
      BaseMonotone(runs, i, i + 1);
      JoinedPrefixNext(runs, i);
      JoinedPrefixLength(runs, i + 1);
      OneMoreRange(runs, valuesRanges, i);
      BaseNext(runs, i);
      if b.from == b.to {
        valuesRanges := valuesRanges + [Rng(0, 0)];
      } else {
        // the slice left out the last offset, so that its length counts the slots
        var src := RunOf(b);
        var n := |src| - 1;
        valuesRanges := valuesRanges + [Rng(src[0], src[n] - src[0])];
        var fits, next := AppendRun(dst, nextElem, runs, i, src, nextOffset);
        if !fits {
          BaseMonotone(runs, i + 1, |runs|);
          return Failure("offset overflow while concatenating arrays");
        }
        nextElem := nextElem + n;
        nextOffset := next;
      }
    }
    JoinedPrefixLength(runs, |runs|);
    dst[outLen] := nextOffset;
    assert dst[..] == dst[..outLen] + [nextOffset];
    FinishOffsets(runs, dst[..]);
    AllRanges(runs, valuesRanges);
    r := Success((Int32Bytes(dst[..]), valuesRanges));
  }

  /** The joined offsets of the first k runs. */
  ghost function JoinedPrefix(runs: seq<Run>, k: nat): seq<int>
    requires k <= |runs|
  {
    Flatten(RebasedRuns(runs)[..k])
  }

  lemma {:induction false} JoinedPrefixEmpty(runs: seq<Run>)
    ensures JoinedPrefix(runs, 0) == []
  {
  }

  lemma {:induction false} JoinedPrefixNext(runs: seq<Run>, k: nat)
    requires k < |runs|
    ensures JoinedPrefix(runs, k + 1) == JoinedPrefix(runs, k) + Rebased(runs, k)
  {
    hide Flatten, Rebased;
    var pieces := RebasedRuns(runs);
    FlattenSnoc(pieces[..k], pieces[k]);
    assert pieces[..k + 1] == pieces[..k] + [pieces[k]];
  }

  lemma {:induction false} JoinedPrefixLength(runs: seq<Run>, k: nat)
    requires k <= |runs|
    ensures |JoinedPrefix(runs, k)| == Start(RebasedRuns(runs), k) <= Start(RebasedRuns(runs), |runs|)
  {
    hide Flatten, Rebased, RebasedRuns;
    StartPrefix(RebasedRuns(runs), k);
    StartMonotone(RebasedRuns(runs), k, |runs|);
  }

  method CountSlots(buffers: seq<Slice>) returns (outLen: nat)
    requires forall i :: 0 <= i < |buffers| ==> OffsetSliceOk(buffers[i])
    ensures outLen == Start(RebasedRuns(RunsOf(buffers)), |buffers|)
  {
    hide Start, RebasedRuns;
    ghost var pieces := RebasedRuns(RunsOf(buffers));
    StartZero(pieces);
    outLen := 0;
    for i := 0 to |buffers|
      invariant outLen == Start(pieces, i)
    {
      StartNext(pieces, i);
      RunLength(buffers[i]);
      outLen := outLen + (buffers[i].to - buffers[i].from) / 4;
    }
  }

  lemma {:induction false} RunsOfAt(buffers: seq<Slice>, i: nat)
    requires i < |buffers| && forall k :: 0 <= k < |buffers| ==> OffsetSliceOk(buffers[k])
    ensures RunsOf(buffers)[i] == RunOf(buffers[i])
  {
  }

  lemma {:induction false} RunsOfOk(buffers: seq<Slice>)
    requires forall i :: 0 <= i < |buffers| ==> OffsetSliceOk(buffers[i])
    ensures RunsOk(RunsOf(buffers))
  {
  }

  lemma {:induction false} RangeFits(run: Run)
    requires RunOk(run) && run != []
    ensures IsInt32(run[0]) && 0 <= RunRange(run).len <= MAX_INT32
  {
  }

  lemma {:induction false} StartZero<T>(pieces: seq<seq<T>>)
    ensures Start(pieces, 0) == 0
  {
  }

  lemma {:induction false} FinishOffsets(runs: seq<Run>, dst: seq<int>)
    requires RunsOk(runs) && Base(runs, |runs|) <= MAX_INT32
    requires dst == JoinedPrefix(runs, |runs|) + [Base(runs, |runs|)]
    ensures dst == JoinedOffsets(runs) && Int32s(Int32Bytes(dst)) == dst
  {
    hide Base, Rebased, Flatten, RebasedRuns, RunsOk, Int32s, Int32Bytes, IsInt32;
    WholePrefix(RebasedRuns(runs));
    assert dst == JoinedOffsets(runs);
    JoinedAreInt32(runs);
    Int32RoundTrip(dst);
  }

  lemma {:induction false} WholePrefix<T>(pieces: seq<seq<T>>)
    ensures Flatten(pieces[..|pieces|]) == Flatten(pieces)
  {
    assert pieces[..|pieces|] == pieces;
  }

  /** Checks for overflow, then moves the offsets of run i to the end of the last run. */
  method AppendRun(dst: array<int>, nextElem: nat, ghost runs: seq<Run>, ghost i: nat, src: seq<int>, nextOffset: int)
    returns (fits: bool, next: int)
    requires RunsOk(runs) && i < |runs| && src == runs[i] && |src| > 1
    requires nextOffset == Base(runs, i) && 0 <= nextOffset <= MAX_INT32
    requires nextElem + |src| - 1 <= dst.Length
    modifies dst
    ensures fits <==> Base(runs, i + 1) <= MAX_INT32
    ensures fits ==> next == Base(runs, i + 1)
    ensures fits ==> dst[..nextElem + |src| - 1] == old(dst[..nextElem]) + Rebased(runs, i)
  {
    hide ToInt32, RunOk;
    var n := |src| - 1;
    var len := src[n] - src[0];
    RangeFits(src);
    if nextOffset > ToInt32(MAX_INT32 - ToInt32(len)) {
      return false, nextOffset;
    }
    // each offset moves by the difference between the last ending point and the starting point
    var adj := ToInt32(nextOffset - src[0]);
    RebaseNoWrap(runs, i, nextOffset, adj);
    forall j | 0 <= j < n {
      dst[nextElem + j] := ToInt32(adj + src[j]);
    }
    assert forall j :: 0 <= j < n ==> dst[nextElem..nextElem + n][j] == Rebased(runs, i)[j];
    assert dst[nextElem..nextElem + n] == Rebased(runs, i);
    assert dst[..nextElem + n] == dst[..nextElem] + dst[nextElem..nextElem + n];
    return true, ToInt32(nextOffset + ToInt32(len));
  }

  lemma {:induction false} RunLength(b: Slice)
    requires OffsetSliceOk(b)
    ensures (b.to - b.from) / 4 == SlotCount(RunOf(b))
    ensures if b.from < b.to then |RunOf(b)| > 1 else RunOf(b) == []
  {
  }

  /** With room for the whole run, no int32 step of the rebasing wraps. */
  lemma {:induction false} RebaseNoWrap(runs: seq<Run>, i: nat, nextOffset: int, adj: int)
    requires RunsOk(runs) && i < |runs| && |runs[i]| > 1
    requires nextOffset == Base(runs, i) && 0 <= nextOffset && nextOffset + RunRange(runs[i]).len <= MAX_INT32
    requires adj == ToInt32(nextOffset - runs[i][0])
    ensures forall j :: 0 <= j < |runs[i]| - 1 ==> ToInt32(adj + runs[i][j]) == Rebased(runs, i)[j]
  {
    var run := runs[i];
    assert RunOk(run);
    forall j | 0 <= j < |run| - 1
      ensures ToInt32(adj + run[j]) == Rebased(runs, i)[j]
    {
      assert run[0] <= run[j] <= run[|run| - 1];
    }
  }

  lemma {:induction false} JoinedAreInt32(runs: seq<Run>)
    requires RunsOk(runs) && Base(runs, |runs|) <= MAX_INT32
    ensures forall m :: 0 <= m < |JoinedOffsets(runs)| ==> IsInt32(JoinedOffsets(runs)[m])
  {
    hide JoinedOffsets;
    JoinedOffsetsOk(runs);
  }
}
