/** The bitmap helpers of arrow/bitutil/bitutil.go. */
module BitUtil {
  import opened Bits
  import opened Bitmaps

  // ---------------------------------------------------------------- single bits

  method SetBit(buf: array<byte>, i: nat)
    requires i < 8 * buf.Length
    modifies buf
    ensures buf[..] == SetBitTo(old(buf[..]), i, true)
  {
    buf[i / 8] := buf[i / 8] | BitMask(i % 8);
  }

  method ClearBit(buf: array<byte>, i: nat)
    requires i < 8 * buf.Length
    modifies buf
    ensures buf[..] == SetBitTo(old(buf[..]), i, false)
  {
    buf[i / 8] := buf[i / 8] & FlippedBitMask(i % 8);
  }

  // ---------------------------------------------------------------- rounding

  predicate IsPowerOf2(n: nat) {
    n == 1 || (n > 1 && n % 2 == 0 && IsPowerOf2(n / 2))
  }

  /** 1 << bits.Len(x): despite its comment in the source, a power of two above x even when x is one. */
  function NextPowerOf2(x: nat): (r: nat)
    ensures r > x && IsPowerOf2(r) && (x > 0 ==> r <= 2 * x)
  {
    if x == 0 then 1 else 2 * NextPowerOf2(x / 2)
  }

  /** (size + 7) &^ 7 */
  function CeilByte(size: nat): nat {
    (size + 7) / 8 * 8
  }

  // ---------------------------------------------------------------- CountSetBits

  /** The number of true elements. */
  function Count(bits: seq<bool>): (n: nat)
    ensures n <= |bits|
  {
    if bits == [] then 0 else (if bits[0] then 1 else 0) + Count(bits[1..])
  }

  lemma {:induction false} CountConcat(x: seq<bool>, y: seq<bool>)
    ensures Count(x + y) == Count(x) + Count(y)
  {
    if x == [] {
      assert x + y == y;
    } else {
      CountConcat(x[1..], y);
      assert (x + y)[1..] == x[1..] + y;
    }
  }

  /** math/bits.OnesCount8 and OnesCount64. */
  function OnesCount8(b: byte): nat {
    Count(ByteBits(b, 8))
  }

  function OnesCount64(w: word): nat {
    Count(WordBits(w))
  }

  function RoundUp(v: nat, f: nat): nat
    requires f > 0
  {
    (v + (f - 1)) / f * f
  }

  lemma {:induction false} CountStep(buf: seq<byte>, offset: nat, m: nat, n: nat)
    requires InRange(buf, offset, m + n)
    ensures Count(BitRange(buf, offset, m + n)) == Count(BitRange(buf, offset, m)) + Count(BitRange(buf, offset + m, n))
  {
    hide Count, BitRange;
    ReadConcat(buf, offset, m, n);
    CountConcat(BitRange(buf, offset, m), BitRange(buf, offset + m, n));
  }

  method CountBitByBit(buf: seq<byte>, from: nat, to: nat) returns (count: nat)
    requires from <= to && InRange(buf, from, to - from)
    ensures count == Count(BitRange(buf, from, to - from))
  {
    hide BitAt;
    count := 0;
    for i := from to to
      invariant count == Count(BitRange(buf, from, i - from))
    {
      CountStep(buf, from, i - from, 1);
      assert BitRange(buf, i, 1) == [BitAt(buf, i)];
      if BitAt(buf, i) {
        count := count + 1;
      }
    }
  }

  method CountWords(buf: seq<byte>, begin: nat, end: nat) returns (count: nat)
    requires begin <= end && 8 * end <= |buf|
    ensures count == Count(BitRange(buf, 64 * begin, 64 * (end - begin)))
  {
    hide Count, BitRange, LoadWord, WordBits;
    count := 0;
    NoneCounted(buf, 64 * begin);
    for k := begin to end
      invariant count == Count(BitRange(buf, 64 * begin, 64 * (k - begin)))
    {
      var w := LoadWord(buf[8 * k..8 * k + 8]);
      LoadedBits(buf[8 * k..8 * k + 8], w);
      SliceBits(buf, 8 * k, 8 * k + 8, buf[8 * k..8 * k + 8], 0, 64);
      CountStep(buf, 64 * begin, 64 * (k - begin), 64);
      count := count + OnesCount64(w);
    }
  }

  method CountBytes(buf: seq<byte>, begin: nat, end: nat) returns (count: nat)
    requires begin <= end <= |buf|
    ensures count == Count(BitRange(buf, 8 * begin, 8 * (end - begin)))
  {
    hide Count, BitRange, ByteBits;
    count := 0;
    NoneCounted(buf, 8 * begin);
    for k := begin to end
      invariant count == Count(BitRange(buf, 8 * begin, 8 * (k - begin)))
    {
      WholeByteBits(buf[k..k + 1]);
      SliceBits(buf, k, k + 1, buf[k..k + 1], 0, 8);
      CountStep(buf, 8 * begin, 8 * (k - begin), 8);
      count := count + OnesCount8(buf[k]);
    }
  }

  lemma {:induction false} NoneCounted(buf: seq<byte>, from: nat)
    ensures Count(BitRange(buf, from, 0)) == 0
  {
  }

  method CountSetBits(buf: seq<byte>, offset: nat, n: nat) returns (count: nat)
    requires InRange(buf, offset, n)
    ensures count == Count(BitRange(buf, offset, n))
  {
    hide Count, BitRange;
    if offset > 0 {
      count := CountSetBitsWithOffset(buf, offset, n);
      return;
    }
    var words := n / 64;
    count := CountWords(buf, 0, words);
    var bytes := CountBytes(buf, words * 8, n / 8);
    var tail := CountBitByBit(buf, n / 8 * 8, n);
    CountStep(buf, 0, 64 * words, 8 * (n / 8 - words * 8));
    CountStep(buf, 0, n / 8 * 8, n - n / 8 * 8);
    count := count + bytes + tail;
  }

  method CountSetBitsWithOffset(buf: seq<byte>, offset: nat, n: nat) returns (count: nat)
    requires InRange(buf, offset, n)
    ensures count == Count(BitRange(buf, offset, n))
  {
    hide Count, BitRange;
    var beg, end := offset, offset + n;
    var begU8 := RoundUp(beg, 64);
    var init := Min(n, begU8 - beg);
    var head := CountBitByBit(buf, beg, beg + init);
    var nU64 := (n - init) / 64;
    var begU64 := begU8 / 64;
    var endU64 := begU64 + nU64;
    var words := 0;
    NoneCounted(buf, offset + init);
    if begU64 < |buf| / 8 {
      words := CountWords(buf, begU64, endU64);
    }
    var tail := beg + init + nU64 * 64;
    var rest := CountBitByBit(buf, tail, end);
    CountStep(buf, offset, init, 64 * nU64);
    CountStep(buf, offset, init + 64 * nU64, n - init - 64 * nU64);
    count := head + words + rest;
  }

  // ---------------------------------------------------------------- SetBitsTo

  /** The tables PrecedingBitmask and TrailingBitmask. */
  function PrecedingBitmask(i: nat): byte
    requires i < 8
  {
    if i == 0 then 0 else if i == 1 then 1 else if i == 2 then 3 else if i == 3 then 7
    else if i == 4 then 15 else if i == 5 then 31 else if i == 6 then 63 else 127
  }

  function TrailingBitmask(i: nat): byte
    requires i < 8
  {
    if i == 0 then 255 else if i == 1 then 254 else if i == 2 then 252 else if i == 3 then 248
    else if i == 4 then 240 else if i == 5 then 224 else if i == 6 then 192 else 128
  }

  /** *b &= keep; *b |= fill &^ keep. */
  function Filled(b: byte, fill: byte, keep: byte): byte {
    (b & keep) | (fill & !keep)
  }

  lemma {:induction false} PrecedingBit(i: nat, k: nat)
    requires i < 8 && k < 8
    ensures Bit(PrecedingBitmask(i), k) == (k < i)
  {
  }

  lemma {:induction false} TrailingBit(i: nat, k: nat)
    requires i < 8 && k < 8
    ensures Bit(TrailingBitmask(i), k) == (k >= i)
  {
  }

  lemma {:induction false} FilledBit(b: byte, v: bool, keep: byte, k: nat)
    requires k < 8
    ensures Bit(Filled(b, Fill(v), keep), k) == if Bit(keep, k) then Bit(b, k) else v
  {
    hide Bit;
    SelectByteBit(b, Fill(v), keep, k);
    FillBit(v, k);
  }

  function Fill(v: bool): byte {
    if v then 255 else 0
  }

  lemma {:induction false} FillBit(v: bool, k: nat)
    requires k < 8
    ensures Bit(Fill(v), k) == v
  {
  }

  function Repeat(v: bool, n: nat): (r: seq<bool>)
    ensures |r| == n
  {
    seq(n, i => v)
  }

  method SetBitsTo(bits: array<byte>, startOffset: nat, length: nat, areSet: bool)
    requires InRange(bits[..], startOffset, length)
    modifies bits
    ensures bits[..] == Overwrite(old(bits[..]), startOffset, Repeat(areSet, length))
  {
    hide Overwrite, FilledByte;
    if length == 0 {
      NothingWritten(bits[..], startOffset, areSet);
      return;
    }
    ghost var s := bits[..];
    var beg, end := startOffset, startOffset + length;
    if end / 8 == beg / 8 {
      FillWithinByte(bits, beg, end, areSet);
    } else {
      FillAcrossBytes(bits, beg, end, areSet);
    }
    FilledRange(s, beg, end, areSet, bits[..]);
  }

  /** All the bits lie in one byte. */
  method FillWithinByte(bits: array<byte>, beg: nat, end: nat, areSet: bool)
    requires beg < end <= 8 * bits.Length && end / 8 == beg / 8
    modifies bits
    ensures forall k :: 0 <= k < bits.Length ==> bits[k] == FilledByte(old(bits[..]), beg, end, areSet, k)
  {
    hide Filled, PrecedingBitmask, TrailingBitmask, Fill;
    var byteBeg := beg / 8;
    var onlyByteMask := PrecedingBitmask(beg % 8);
    if end % 8 != 0 {
      onlyByteMask := PrecedingBitmask(beg % 8) | TrailingBitmask(end % 8);
    }
    bits[byteBeg] := Filled(bits[byteBeg], Fill(areSet), onlyByteMask);
  }

  /** First byte, whole bytes, and the last byte unless the range ends on a byte boundary. */
  method FillAcrossBytes(bits: array<byte>, beg: nat, end: nat, areSet: bool)
    requires beg < end <= 8 * bits.Length && beg / 8 < end / 8
    modifies bits
    ensures forall k :: 0 <= k < bits.Length ==> bits[k] == FilledByte(old(bits[..]), beg, end, areSet, k)
  {
    hide Filled, PrecedingBitmask, TrailingBitmask, Fill;
    var byteBeg, byteEnd := beg / 8, end / 8 + 1;
    bits[byteBeg] := Filled(bits[byteBeg], Fill(areSet), PrecedingBitmask(beg % 8));
    if byteEnd - byteBeg > 2 {
      forall k | byteBeg + 1 <= k < byteEnd - 1 {
        bits[k] := Fill(areSet);
      }
    }
    if end % 8 == 0 {
      return;
    }
    bits[byteEnd - 1] := Filled(bits[byteEnd - 1], Fill(areSet), TrailingBitmask(end % 8));
  }

  lemma {:induction false} NothingWritten(s: seq<byte>, at: nat, v: bool)
    ensures Overwrite(s, at, Repeat(v, 0)) == s
  {
  }

  /** Byte k once the bits [beg, end) have been filled byte by byte. */
  function FilledByte(s: seq<byte>, beg: nat, end: nat, v: bool, k: nat): byte
    requires k < |s| && beg < end
  {
    if k < beg / 8 || k > end / 8 || (k == end / 8 && end % 8 == 0) then s[k]
    else if k == beg / 8 && k == end / 8 then
      Filled(s[k], Fill(v), PrecedingBitmask(beg % 8) | TrailingBitmask(end % 8))
    else if k == beg / 8 then Filled(s[k], Fill(v), PrecedingBitmask(beg % 8))
    else if k == end / 8 then Filled(s[k], Fill(v), TrailingBitmask(end % 8))
    else Fill(v)
  }

  lemma {:induction false} FilledByteBit(s: seq<byte>, beg: nat, end: nat, v: bool, j: nat)
    requires j < 8 * |s| && beg < end
    ensures Bit(FilledByte(s, beg, end, v, j / 8), j % 8) == if beg <= j < end then v else BitAt(s, j)
  {
    hide Bit, Filled, PrecedingBitmask, TrailingBitmask, Fill;
    var k, i := j / 8, j % 8;
    var first, last := PrecedingBitmask(beg % 8), TrailingBitmask(end % 8);
    PrecedingBit(beg % 8, i);
    TrailingBit(end % 8, i);
    FillBit(v, i);
    if k == beg / 8 && k == end / 8 {
      OrByteBit(first, last, i);
      FilledBit(s[k], v, first | last, i);
    } else if k == beg / 8 {
      FilledBit(s[k], v, first, i);
    } else if k == end / 8 {
      FilledBit(s[k], v, last, i);
    }
  }

  lemma {:induction false} FilledRange(s: seq<byte>, beg: nat, end: nat, v: bool, t: seq<byte>)
    requires beg < end <= 8 * |s| && |t| == |s|
    requires forall k :: 0 <= k < |s| ==> t[k] == FilledByte(s, beg, end, v, k)
    ensures t == Overwrite(s, beg, Repeat(v, end - beg))
  {
    hide Bit, Overwrite, FilledByte;
    forall j | 0 <= j < 8 * |s|
      ensures BitAt(t, j) == if beg <= j < beg + (end - beg) then Repeat(v, end - beg)[j - beg] else BitAt(s, j)
    {
      FilledByteBit(s, beg, end, v, j);
    }
    OverwriteUnique(s, beg, Repeat(v, end - beg), t);
  }
}
