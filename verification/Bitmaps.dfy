/**
 The bitmap readers and writers of arrow/bitutil/bitmaps.go and CopyBitmap.

 A Go slice that is only read is a sequence, and re-slicing it reassigns the
 field. A Go slice that is written is an array together with the index lo of
 the slice's first byte in it.
 */
module Bitmaps {
  import opened Bits

  function BytesForBits(bits: nat): nat {
    (bits + 7) / 8
  }

  // ---------------------------------------------------------------- one bit at a time

  class BitmapReader {
    const bitmap: seq<byte>
    const start: nat
    const len: nat
    var pos: nat
    var current: byte
    var byteOffset: nat
    var bitOffset: nat

    ghost predicate Valid()
      reads this
    {
      && InRange(bitmap, start, len)
      && bitOffset < 8
      && 8 * byteOffset + bitOffset == start + pos
      && (pos < len ==> current == bitmap[byteOffset])
    }

    constructor (bitmap: seq<byte>, offset: nat, length: nat)
      requires InRange(bitmap, offset, length)
      ensures Valid() && pos == 0
      ensures this.bitmap == bitmap && start == offset && len == length
    {
      this.bitmap, start, len := bitmap, offset, length;
      byteOffset, bitOffset := offset / 8, offset % 8;
      pos := 0;
      current := if length > 0 then bitmap[offset / 8] else 0;
    }

    method Set() returns (r: bool)
      requires Valid() && pos < len
      ensures r == BitAt(bitmap, start + pos)
    {
      r := current & BitMask(bitOffset) != 0;
    }

    method Next()
      requires Valid()
      modifies this
      ensures Valid() && pos == old(pos) + 1
    {
      bitOffset := bitOffset + 1;
      pos := pos + 1;
      if bitOffset == 8 {
        bitOffset := 0;
        byteOffset := byteOffset + 1;
        if pos < len {
          current := bitmap[byteOffset];
        }
      }
    }
  }

  class BitmapWriter {
    const buf: array<byte>
    ghost const start: nat
    const length: nat
    var pos: nat
    var curByte: byte
    var bitMask: byte
    var byteOffset: nat

    ghost predicate Valid()
      reads this
    {
      && (length == 0 || start + length <= 8 * buf.Length)
      && pos <= length
      && byteOffset == (start + pos) / 8
      && bitMask == BitMask((start + pos) % 8)
    }

    /** Whether curByte still has to be flushed. */
    ghost predicate Pending()
      requires Valid()
      reads this
    {
      length > 0 && (pos < length || (start + pos) % 8 != 0)
    }

    /** The bitmap as it will be once curByte is flushed. */
    ghost function Image(): (s: seq<byte>)
      requires Valid()
      reads this, buf
      ensures |s| == buf.Length
    {
      if Pending() then buf[..][byteOffset := curByte] else buf[..]
    }

    constructor (bitmap: array<byte>, start: nat, length: nat)
      requires InRange(bitmap[..], start, length)
      ensures Valid() && pos == 0 && Image() == bitmap[..]
      ensures buf == bitmap && this.start == start && this.length == length
    {
      buf, this.start, this.length := bitmap, start, length;
      pos := 0;
      byteOffset := start / 8;
      bitMask := BitMask(start % 8);
      curByte := if length > 0 then bitmap[start / 8] else 0;
    }

    method Set()
      requires Valid() && pos < length
      modifies this`curByte
      ensures Valid() && Image() == SetBitTo(old(Image()), start + pos, true)
    {
      curByte := curByte | bitMask;
    }

    method Clear()
      requires Valid() && pos < length
      modifies this`curByte
      ensures Valid() && Image() == SetBitTo(old(Image()), start + pos, false)
    {
      FlippedIsComplement((start + pos) % 8);
      curByte := curByte & !bitMask;
    }

    method Next()
      requires Valid() && pos < length
      modifies this, buf
      ensures Valid() && pos == old(pos) + 1 && Image() == old(Image())
    {
      hide BitMask;
      MaskNext((start + pos) % 8);
      NextIndex(start + pos);
      MaskOne((start + pos + 1) % 8);
      bitMask := bitMask << 1;
      pos := pos + 1;
      if bitMask == 0 {
        bitMask := 0x01;
        buf[byteOffset] := curByte;
        byteOffset := byteOffset + 1;
        if pos < length {
          curByte := buf[byteOffset];
        }
      }
    }

    method Finish()
      requires Valid()
      modifies buf
      ensures Valid() && buf[..] == old(Image())
    {
      MaskOne((start + pos) % 8);
      if length > 0 && (bitMask != 0x01 || pos < length) {
        buf[byteOffset] := curByte;
      }
    }
  }

  lemma {:induction false} FlippedIsComplement(i: nat)
    requires i < 8
    ensures FlippedBitMask(i) == !BitMask(i)
  {
  }

  lemma {:induction false} MaskNext(i: nat)
    requires i < 8
    ensures BitMask(i) << 1 == if i < 7 then BitMask(i + 1) else 0
    ensures i < 7 ==> BitMask(i + 1) != 0
  {
  }

  lemma {:induction false} MaskOne(i: nat)
    requires i < 8
    ensures BitMask(i) == 1 <==> i == 0
  {
  }

  // ---------------------------------------------------------------- a word at a time

  function Min(a: nat, b: nat): nat {
    if a < b then a else b
  }

  /** The n lowest bits of a byte. */
  function ByteBits(b: byte, n: nat): (r: seq<bool>)
    requires n <= 8
    ensures |r| == n
  {
    seq(n, i requires 0 <= i < n => Bit(b, i))
  }

  class BitmapWordReader {
    ghost const src: seq<byte>
    ghost const base: nat  // index in src of the first byte read
    ghost const length: nat
    ghost var taken: nat   // whole bytes handed out so far
    ghost var pos: nat     // bits handed out so far

    var bitmap: seq<byte>
    const offset: nat
    const nwords: nat
    var trailingBits: nat
    var trailingBytes: int
    var curword: word

    ghost const start := 8 * base + offset

    ghost predicate Valid()
      reads this
    {
      && offset < 8
      && 0 < offset + length
      && base + BytesForBits(offset + length) <= |src|
      && InRange(src, start, length)
      && (if length < 128 then nwords == 0 else 64 * nwords + 64 <= length < 64 * nwords + 128)
      && pos <= length
      && trailingBits == length - (if pos < 64 * nwords then 64 * nwords else pos)
      && (pos < length ==>
          && pos == 8 * taken
          && bitmap == src[base + taken..base + BytesForBits(offset + length)]
          && (pos <= 64 * nwords && nwords > 0 ==> curword == LoadWord(bitmap))
          && GetLSB(curword) == bitmap[0])
    }

    constructor (bitmap: seq<byte>, offset: nat, length: nat)
      requires InRange(bitmap, offset, length)
      requires length > 0 || (offset % 8 != 0 && offset / 8 < |bitmap|)
      ensures Valid() && pos == 0
      ensures src == bitmap && start == offset && this.length == length
      ensures trailingBytes == BytesForBits(length - 64 * nwords)
    {
      hide LoadWord, GetLSB;
      var bitoffset, byteOffset := offset % 8, offset / 8;
      src, base, this.length, taken, pos := bitmap, byteOffset, length, 0, 0;
      var bm := bitmap[byteOffset..byteOffset + BytesForBits(bitoffset + length)];
      this.offset := bitoffset;
      this.bitmap := bm;
      // one word fewer, because a step may touch two adjacent words
      var n := if length / 64 - 1 < 0 then 0 else length / 64 - 1;
      nwords := n;
      trailingBits := length - n * 64;
      trailingBytes := BytesForBits(length - n * 64);
      if n > 0 {
        curword := LoadWord(bm);
      } else {
        curword := SetLSB(0, bm[0]);
      }
      new;
      if n > 0 {
        NextLSB(bm, curword);
      }
    }

    method NextWord() returns (w: word)
      requires Valid() && pos + 64 <= 64 * nwords
      modifies this
      ensures Valid() && pos == old(pos) + 64
      ensures trailingBytes == old(trailingBytes)
      ensures WordBits(w) == BitRange(src, start + old(pos), 64)
    {
      hide LoadWord, WordBits, BitRange, Shr, Shl, GetLSB;
      ghost var whole := bitmap;
      bitmap := bitmap[8..];
      w := curword;
      var nextWord := LoadWord(bitmap);
      if offset != 0 {
        var lo, hi := Shr(w, offset), Shl(nextWord, 64 - offset);
        WindowBits(whole, curword, nextWord, lo, hi, offset);
        w := lo | hi;
      } else {
        LoadedBits(whole, w);
      }
      SliceBits(src, base + taken, base + BytesForBits(offset + length), whole, offset, 64);
      NextLSB(bitmap, nextWord);
      curword := nextWord;
      taken, pos := taken + 8, pos + 64;
    }

    method NextTrailingByte() returns (val: byte, validBits: nat)
      requires Valid() && 64 * nwords <= pos < length
      modifies this
      ensures Valid() && validBits == Min(8, length - old(pos)) && pos == old(pos) + validBits
      ensures ByteBits(val, validBits) == BitRange(src, start + old(pos), validBits)
      ensures trailingBytes == old(trailingBytes) - (if length - old(pos) > 8 then 1 else 0)
    {
      hide LoadWord, GetLSB, BitAt, Bit, SetLSB, ByteBits, BitRange, WindowByte;
      SliceBits(src, base + taken, base + BytesForBits(offset + length), bitmap, offset, Min(8, trailingBits));
      if trailingBits <= 8 {
        // last byte
        validBits := trailingBits;
        trailingBits := 0;
        val := LastByte(bitmap, offset, validBits);
        pos := pos + validBits;
        return;
      }
      ghost var whole := bitmap;
      bitmap := bitmap[1..];
      var nextByte := bitmap[0];
      val := GetLSB(curword);
      if offset != 0 {
        val := WindowByte(val, nextByte, offset);
        WindowByteBits(whole, offset);
      } else {
        WholeByteBits(whole);
      }
      curword := SetLSB(curword, nextByte);
      trailingBits := trailingBits - 8;
      trailingBytes := trailingBytes - 1;
      validBits := 8;
      taken, pos := taken + 1, pos + 8;
    }
  }

  /** The last byte of NextTrailingByte, assembled bit by bit from the top. */
  method LastByte(bitmap: seq<byte>, offset: nat, validBits: nat) returns (val: byte)
    requires 0 < validBits <= 8 && InRange(bitmap, offset, validBits)
    ensures ByteBits(val, validBits) == BitRange(bitmap, offset, validBits)
  {
    hide Bit, BitAt;
    val := 0;
    var rdr := new BitmapReader(bitmap, offset, validBits);
    for t := 0 to validBits
      invariant rdr.Valid() && rdr.pos == t && fresh(rdr)
      invariant rdr.bitmap == bitmap && rdr.start == offset && rdr.len == validBits
      invariant forall i :: 0 <= i < t ==> Bit(val, 8 - t + i) == BitRange(bitmap, offset, validBits)[i]
    {
      ghost var before := val;
      var half := val >> 1;
      val := half;
      var isSet := rdr.Set();
      if isSet {
        val := half | 0x80;
      }
      forall i | 0 <= i <= t
        ensures Bit(val, 8 - (t + 1) + i) == BitRange(bitmap, offset, validBits)[i]
      {
        PushTopBit(before, half, val, isSet, 7 - t + i);
      }
      rdr.Next();
    }
    ghost var full := val;
    val := val >> (8 - validBits);
    forall i | 0 <= i < validBits
      ensures ByteBits(val, validBits)[i] == BitRange(bitmap, offset, validBits)[i]
    {
      ByteShrBit(full, 8 - validBits, i);
    }
  }

  lemma {:induction false} PushTopBit(before: byte, half: byte, after: byte, isSet: bool, i: nat)
    requires i < 8 && half == before >> 1 && after == if isSet then half | 0x80 else half
    ensures Bit(after, i) == if i == 7 then isSet else Bit(before, i + 1)
  {
    hide Bit;
    ByteShrBit(before, 1, i);
    OrByteBit(half, 0x80, i);
    TopBit(i);
  }

  lemma {:induction false} TopBit(i: nat)
    requires i < 8
    ensures Bit(0x80, i) == (i == 7)
  {
  }

  lemma {:induction false} WholeByteBits(s: seq<byte>)
    requires |s| >= 1
    ensures ByteBits(s[0], 8) == BitRange(s, 0, 8)
  {
    hide Bit;
    var x, y := ByteBits(s[0], 8), BitRange(s, 0, 8);
    assert forall i :: 0 <= i < 8 ==> x[i] == y[i];
  }

  /** The byte that starts at bit n of cur and ends in next. */
  function WindowByte(cur: byte, next: byte, n: nat): byte
    requires 0 < n < 8
  {
    (cur >> n) | (next << (8 - n))
  }

  lemma {:induction false} WindowByteBits(s: seq<byte>, n: nat)
    requires |s| >= 2 && 0 < n < 8
    ensures ByteBits(WindowByte(s[0], s[1], n), 8) == BitRange(s, n, 8)
  {
    hide Bit, ByteBits, BitRange, WindowByte;
    forall i | 0 <= i < 8
      ensures Bit(WindowByte(s[0], s[1], n), i) == BitAt(s, n + i)
    {
      WindowByteBit(s[0], s[1], n, i);
    }
    SameByteBits(WindowByte(s[0], s[1], n), s, n);
  }

  lemma {:induction false} WindowByteBit(cur: byte, next: byte, n: nat, i: nat)
    requires 0 < n < 8 && i < 8
    ensures Bit(WindowByte(cur, next, n), i) == if i + n < 8 then Bit(cur, i + n) else Bit(next, i + n - 8)
  {
    hide Bit;
    FunnelByteBit(cur, next, cur >> n, next << (8 - n), n, i);
  }

  lemma {:induction false} SameByteBits(b: byte, s: seq<byte>, n: nat)
    requires n + 8 <= 8 * |s|
    requires forall i :: 0 <= i < 8 ==> Bit(b, i) == BitAt(s, n + i)
    ensures ByteBits(b, 8) == BitRange(s, n, 8)
  {
    hide Bit, BitAt;
  }

  lemma {:induction false} NextLSB(s: seq<byte>, w: word)
    requires |s| >= 8 && w == LoadWord(s)
    ensures GetLSB(w) == s[0]
  {
    ByteOfLoad(s, 0);
  }

  lemma {:induction false} LoadedBits(s: seq<byte>, w: word)
    requires |s| >= 8 && w == LoadWord(s)
    ensures WordBits(w) == BitRange(s, 0, 64)
  {
    hide BitAt, WordBit, LoadWord;
    forall k | 0 <= k < 64
      ensures WordBit(w, k) == BitAt(s, k)
    {
      LoadBit(s, k);
    }
  }

  lemma {:induction false} WindowBits(s: seq<byte>, cur: word, next: word, lo: word, hi: word, n: nat)
    requires |s| >= 16 && 0 < n < 8
    requires cur == LoadWord(s) && next == LoadWord(s[8..])
    requires lo == Shr(cur, n) && hi == Shl(next, 64 - n)
    ensures WordBits(lo | hi) == BitRange(s, n, 64)
  {
    hide BitAt, WordBit, LoadWord, Shr, Shl;
    var w := lo | hi;
    forall k | 0 <= k < 64
      ensures WordBit(w, k) == BitAt(s, n + k)
    {
      FunnelBit(cur, next, lo, hi, n, k);
      if n + k < 64 {
        LoadBit(s, n + k);
      } else {
        LoadBit(s[8..], n + k - 64);
        SliceBit(s, 8, |s|, n + k - 64);
        assert s[8..] == s[8..|s|];
      }
    }
  }

  lemma {:induction false} SliceBit(s: seq<byte>, lo: nat, hi: nat, i: nat)
    requires lo <= hi <= |s| && i < 8 * (hi - lo)
    ensures BitAt(s[lo..hi], i) == BitAt(s, 8 * lo + i)
  {
    hide Bit;
  }

  lemma {:induction false} SliceBits(s: seq<byte>, lo: nat, hi: nat, t: seq<byte>, from: nat, n: nat)
    requires lo <= hi <= |s| && t == s[lo..hi] && from + n <= 8 * |t|
    ensures BitRange(t, from, n) == BitRange(s, 8 * lo + from, n)
  {
    hide BitAt;
    var x, y := BitRange(t, from, n), BitRange(s, 8 * lo + from, n);
    forall i | 0 <= i < n
      ensures x[i] == y[i]
    {
      SliceBit(s, lo, hi, from + i);
    }
  }

  /** s with the eight bytes from index at on replaced by the bytes of w. */
  function StoreWord(s: seq<byte>, at: nat, w: word): (r: seq<byte>)
    requires at + 8 <= |s|
    ensures |r| == |s|
  {
    s[..at] + BytesOf(w) + s[at + 8..]
  }

  lemma {:induction false} StoreWordBit(s: seq<byte>, at: nat, w: word, j: nat)
    requires at + 8 <= |s| && j < 8 * |s|
    ensures BitAt(StoreWord(s, at, w), j) == if 8 * at <= j < 8 * at + 64 then WordBit(w, j - 8 * at) else BitAt(s, j)
  {
    hide Bit, BytesOf, WordBit;
    if 8 * at <= j < 8 * at + 64 {
      StoreBit(w, j - 8 * at);
      assert StoreWord(s, at, w)[j / 8] == BytesOf(w)[j / 8 - at];
    }
  }

  method PutUint64(buf: array<byte>, at: nat, w: word)
    requires at + 8 <= buf.Length
    modifies buf
    ensures buf[..] == StoreWord(old(buf[..]), at, w)
  {
    hide ByteOf;
    for j := 0 to 8
      invariant forall i :: 0 <= i < buf.Length ==>
        buf[i] == if at <= i < at + j then ByteOf(w, i - at) else old(buf[..])[i]
    {
      buf[at + j] := ByteOf(w, j);
    }
  }

  ghost predicate AgreeLow(a: byte, b: byte, n: nat)
    requires n <= 8
  {
    forall i :: 0 <= i < n ==> Bit(a, i) == Bit(b, i)
  }

  class BitmapWordWriter {
    const buf: array<byte>
    var lo: nat           // index in buf of the first byte of the slice still to be written
    const offset: nat
    const bitMask: word
    var currentWord: word
    ghost var left: nat   // bits still to be put

    ghost function Position(): nat
      reads this
    {
      8 * lo + offset
    }

    ghost predicate Valid()
      reads this, buf
    {
      && offset < 8
      && bitMask == LowMask(offset)
      && (left > 0 ==>
          && Position() + left <= 8 * buf.Length
          && (offset > 0 ==> AgreeLow(GetLSB(currentWord), buf[lo], offset)))
    }

    constructor (bitmap: array<byte>, start: nat, len: nat)
      requires start + len <= 8 * bitmap.Length
      ensures Valid() && buf == bitmap && Position() == start && left == len
    {
      hide Bit, LowMask, LoadWord, GetLSB;
      buf, lo, offset, left := bitmap, start / 8, start % 8, len;
      bitMask := LowMask(start % 8);
      var cur: word := 0;
      if start % 8 != 0 {
        if len >= 64 {
          cur := LoadWord(bitmap[start / 8..]);
          NextLSB(bitmap[start / 8..], cur);
        } else if len > 0 {
          cur := SetLSB(cur, bitmap[start / 8]);
        }
      }
      currentWord := cur;
    }

    method PutNextWord(word: word)
      requires Valid() && left >= 64
      requires offset != 0 ==> lo + 16 <= buf.Length
      modifies this, buf
      ensures Valid() && Position() == old(Position()) + 64 && left == old(left) - 64
      ensures buf[..] == Overwrite(old(buf[..]), old(Position()), WordBits(word))
    {
      hide AgreeLow, LowMask, GetLSB, Overwrite, WordBits;
      if offset != 0 {
        currentWord := PutSplit(buf, lo, offset, bitMask, currentWord, word);
      } else {
        ghost var s := buf[..];
        PutUint64(buf, lo, word);
        PutWholeWord(s, lo, word, buf[..]);
      }
      lo := lo + 8;
      left := left - 64;
    }

    method PutNextTrailingByte(b: byte, validBits: nat)
      requires Valid() && 0 < validBits <= 8 && validBits <= left
      requires validBits < 8 ==> validBits == left
      modifies this, buf
      ensures Valid() && left == old(left) - validBits
      ensures left > 0 ==> Position() == old(Position()) + validBits
      ensures buf[..] == Overwrite(old(buf[..]), old(Position()), ByteBits(b, validBits))
    {
      hide AgreeLow, LowMask, GetLSB, Overwrite, ByteBits;
      if validBits == 8 {
        if offset != 0 {
          var next := PutSplitByte(buf, lo, offset, bitMask, GetLSB(currentWord), b);
          currentWord := next as word;
          LowByteOfByte(next);
        } else {
          ghost var s := buf[..];
          buf[lo] := b;
          PutWholeByte(s, lo, b, buf[..]);
        }
        lo := lo + 1;
      } else {
        PutBits(buf, lo, offset, b, validBits);
      }
      left := left - validBits;
    }
  }

  /** PutNextWord away from a byte boundary: one word split into two adjacent words. */
  method PutSplit(buf: array<byte>, lo: nat, offset: nat, bitMask: word, currentWord: word, word: word)
    returns (next: word)
    requires lo + 16 <= buf.Length && 0 < offset < 8 && bitMask == LowMask(offset)
    requires AgreeLow(GetLSB(currentWord), buf[lo], offset)
    modifies buf
    ensures buf[..] == Overwrite(old(buf[..]), 8 * lo + offset, WordBits(word))
    ensures AgreeLow(GetLSB(next), buf[lo + 8], offset)
  {
    hide AgreeLow, LowMask, LoadWord, GetLSB, StoreWord, Overwrite, WordBits, Shr, Shl;
    ghost var s := buf[..];
    var hi, lw := Shl(word, offset), Shr(word, 64 - offset);
    var rot := hi | lw;
    var old' := LoadWord(buf[lo + 8..]);
    assert s[lo + 8..] == buf[lo + 8..];
    var cur := (currentWord & bitMask) | (rot & !bitMask);
    next := (old' & !bitMask) | (rot & bitMask);
    PutUint64(buf, lo, cur);
    PutUint64(buf, lo + 8, next);
    PutSplitWord(s, lo, offset, word, hi, lw, rot, bitMask, currentWord, cur, old', next, buf[..]);
    StoredLSB(StoreWord(s, lo, cur), lo + 8, next, buf[..], offset);
  }

  lemma {:induction false} StoredLSB(s: seq<byte>, at: nat, w: word, t: seq<byte>, n: nat)
    requires at + 8 <= |s| && t == StoreWord(s, at, w) && n <= 8
    ensures AgreeLow(GetLSB(w), t[at], n)
  {
    hide ByteOf;
  }

  lemma {:induction false} PutWholeWord(s: seq<byte>, lo: nat, word: word, t: seq<byte>)
    requires lo + 8 <= |s| && t == StoreWord(s, lo, word)
    ensures t == Overwrite(s, 8 * lo, WordBits(word))
  {
    hide BitAt, WordBit, Overwrite, StoreWord;
    forall j | 0 <= j < 8 * |s|
      ensures BitAt(t, j) == if 8 * lo <= j < 8 * lo + 64 then WordBits(word)[j - 8 * lo] else BitAt(s, j)
    {
      StoreWordBit(s, lo, word, j);
    }
    OverwriteUnique(s, 8 * lo, WordBits(word), t);
  }

  /** The first of two merged words keeps n old bits and then shows the word put. */
  lemma {:induction false} FirstHalfBit(s: seq<byte>, lo: nat, n: nat, word: word, hi: word, lw: word, rot: word,
    sel: word, cur: word, cur': word, k: nat)
    requires lo < |s| && 0 < n < 8 && k < 64
    requires hi == Shl(word, n) && lw == Shr(word, 64 - n) && rot == hi | lw
    requires sel == LowMask(n)
    requires AgreeLow(GetLSB(cur), s[lo], n)
    requires cur' == (cur & sel) | (rot & !sel)
    ensures WordBit(cur', k) == if k < n then BitAt(s, 8 * lo + k) else WordBit(word, k - n)
  {
    hide Bit, WordBit, LowMask, Shl, Shr, ByteOf;
    MergeBit(cur, rot, sel, n, k);
    RotateBit(word, hi, lw, n, k);
    WordBitByte(cur, k);
  }

  /** The second shows the top n bits of the word put and then keeps old bits. */
  lemma {:induction false} SecondHalfBit(s: seq<byte>, at: nat, n: nat, word: word, hi: word, lw: word, rot: word,
    sel: word, next: word, next': word, k: nat)
    requires at + 8 <= |s| && 0 < n < 8 && k < 64
    requires hi == Shl(word, n) && lw == Shr(word, 64 - n) && rot == hi | lw
    requires sel == LowMask(n) && next == LoadWord(s[at..])
    requires next' == (next & !sel) | (rot & sel)
    ensures WordBit(next', k) == if k < n then WordBit(word, k + 64 - n) else BitAt(s, 8 * at + k)
  {
    hide BitAt, WordBit, LowMask, Shl, Shr, LoadWord;
    OrCommutes(next & !sel, rot & sel);
    MergeBit(rot, next, sel, n, k);
    RotateBit(word, hi, lw, n, k);
    LoadBit(s[at..], k);
    SliceBit(s, at, |s|, k);
    assert s[at..] == s[at..|s|];
  }

  lemma {:induction false} OrCommutes(a: word, b: word)
    ensures a | b == b | a
  {
  }

  /** Two merged words stored side by side write exactly the bits of the word they share. */
  lemma {:induction false} PutSplitWord(s: seq<byte>, lo: nat, n: nat, word: word, hi: word, lw: word, rot: word,
    sel: word, cur: word, cur': word, next: word, next': word, t: seq<byte>)
    requires lo + 16 <= |s| && 0 < n < 8
    requires hi == Shl(word, n) && lw == Shr(word, 64 - n) && rot == hi | lw
    requires sel == LowMask(n)
    requires AgreeLow(GetLSB(cur), s[lo], n)
    requires next == LoadWord(s[lo + 8..])
    requires cur' == (cur & sel) | (rot & !sel) && next' == (next & !sel) | (rot & sel)
    requires t == StoreWord(StoreWord(s, lo, cur'), lo + 8, next')
    ensures t == Overwrite(s, 8 * lo + n, WordBits(word))
  {
    hide BitAt, WordBit, Overwrite, StoreWord, LowMask, Shl, Shr, LoadWord, GetLSB, AgreeLow;
    var p := 8 * lo;
    forall j | 0 <= j < 8 * |s|
      ensures BitAt(t, j) == if p + n <= j < p + n + 64 then WordBits(word)[j - p - n] else BitAt(s, j)
    {
      StoreWordBit(StoreWord(s, lo, cur'), lo + 8, next', j);
      StoreWordBit(s, lo, cur', j);
      if p <= j < p + 64 {
        FirstHalfBit(s, lo, n, word, hi, lw, rot, sel, cur, cur', j - p);
      } else if p + 64 <= j < p + 128 {
        SecondHalfBit(s, lo + 8, n, word, hi, lw, rot, sel, next, next', j - p - 64);
      }
    }
    OverwriteUnique(s, p + n, WordBits(word), t);
  }

  lemma {:induction false} LowByteOfByte(b: byte)
    ensures GetLSB(b as word) == b
  {
  }

  lemma {:induction false} PutWholeByte(s: seq<byte>, lo: nat, b: byte, t: seq<byte>)
    requires lo < |s| && t == s[lo := b]
    ensures t == Overwrite(s, 8 * lo, ByteBits(b, 8))
  {
    hide Bit, Overwrite;
    forall j | 0 <= j < 8 * |s|
      ensures BitAt(t, j) == if 8 * lo <= j < 8 * lo + 8 then ByteBits(b, 8)[j - 8 * lo] else BitAt(s, j)
    {
    }
    OverwriteUnique(s, 8 * lo, ByteBits(b, 8), t);
  }

  /** PutNextTrailingByte with eight bits away from a byte boundary. */
  method PutSplitByte(buf: array<byte>, lo: nat, offset: nat, bitMask: word, cur: byte, b: byte)
    returns (next: byte)
    requires lo + 2 <= buf.Length && 0 < offset < 8 && bitMask == LowMask(offset)
    requires AgreeLow(cur, buf[lo], offset)
    modifies buf
    ensures buf[..] == Overwrite(old(buf[..]), 8 * lo + offset, ByteBits(b, 8))
    ensures buf[lo + 1] == next && AgreeLow(next, buf[lo + 1], offset)
  {
    hide LowMask, GetLSB, Overwrite, ByteBits, Bit;
    ghost var s := buf[..];
    var m := GetLSB(bitMask);
    var hi, lw := b << offset, b >> (8 - offset);
    var rot := hi | lw;
    var old' := buf[lo + 1];
    var first := (cur & m) | (rot & !m);
    next := (old' & !m) | (rot & m);
    buf[lo] := first;
    buf[lo + 1] := next;
    SplitByte(s, lo, offset, b, hi, lw, rot, m, cur, first, next, buf[..]);
  }

  lemma {:induction false} FirstByteBit(n: nat, b: byte, hi: byte, lw: byte, rot: byte, m: byte, cur: byte,
    first: byte, i: nat)
    requires 0 < n < 8 && i < 8 && m == GetLSB(LowMask(n))
    requires hi == b << n && lw == b >> (8 - n) && rot == hi | lw
    requires first == (cur & m) | (rot & !m)
    ensures Bit(first, i) == if i < n then Bit(cur, i) else Bit(b, i - n)
  {
    hide Bit, LowMask, ByteOf;
    LowMaskByte(n, i);
    SelectByteBit(cur, rot, m, i);
    RotateByteBit(b, hi, lw, n, i);
  }

  lemma {:induction false} SecondByteBit(n: nat, b: byte, hi: byte, lw: byte, rot: byte, m: byte, old': byte,
    next: byte, i: nat)
    requires 0 < n < 8 && i < 8 && m == GetLSB(LowMask(n))
    requires hi == b << n && lw == b >> (8 - n) && rot == hi | lw
    requires next == (old' & !m) | (rot & m)
    ensures Bit(next, i) == if i < n then Bit(b, i + 8 - n) else Bit(old', i)
  {
    hide Bit, LowMask, ByteOf;
    LowMaskByte(n, i);
    OrByteCommutes(old' & !m, rot & m);
    SelectByteBit(rot, old', m, i);
    RotateByteBit(b, hi, lw, n, i);
  }

  lemma {:induction false} OrByteCommutes(a: byte, b: byte)
    ensures a | b == b | a
  {
  }

  /** One bit of the two bytes that a byte is split over. */
  lemma {:induction false} SplitByteBit(s: seq<byte>, lo: nat, n: nat, b: byte, hi: byte, lw: byte, rot: byte, m: byte,
                  cur: byte, first: byte, next: byte, t: seq<byte>, j: nat)
    requires lo + 2 <= |s| && 0 < n < 8 && m == GetLSB(LowMask(n))
    requires AgreeLow(cur, s[lo], n)
    requires hi == b << n && lw == b >> (8 - n) && rot == hi | lw
    requires first == (cur & m) | (rot & !m) && next == (s[lo + 1] & !m) | (rot & m)
    requires t == s[lo := first][lo + 1 := next] && j < 8 * |s|
    ensures BitAt(t, j) == if 8 * lo + n <= j < 8 * lo + n + 8 then ByteBits(b, 8)[j - 8 * lo - n] else BitAt(s, j)
  {
    hide Bit, LowMask, GetLSB;
    var p := 8 * lo;
    if p <= j < p + 8 {
      FirstByteBit(n, b, hi, lw, rot, m, cur, first, j - p);
    } else if p + 8 <= j < p + 16 {
      SecondByteBit(n, b, hi, lw, rot, m, s[lo + 1], next, j - p - 8);
    }
  }

  lemma {:induction false} SplitByte(s: seq<byte>, lo: nat, n: nat, b: byte, hi: byte, lw: byte, rot: byte, m: byte,
                  cur: byte, first: byte, next: byte, t: seq<byte>)
    requires lo + 2 <= |s| && 0 < n < 8 && m == GetLSB(LowMask(n))
    requires AgreeLow(cur, s[lo], n)
    requires hi == b << n && lw == b >> (8 - n) && rot == hi | lw
    requires first == (cur & m) | (rot & !m) && next == (s[lo + 1] & !m) | (rot & m)
    requires t == s[lo := first][lo + 1 := next]
    ensures t == Overwrite(s, 8 * lo + n, ByteBits(b, 8))
  {
    hide Bit, BitAt, Overwrite, LowMask, GetLSB, AgreeLow;
    var p := 8 * lo;
    forall j | 0 <= j < 8 * |s|
      ensures BitAt(t, j) == if p + n <= j < p + n + 8 then ByteBits(b, 8)[j - p - n] else BitAt(s, j)
    {
      SplitByteBit(s, lo, n, b, hi, lw, rot, m, cur, first, next, t, j);
    }
    OverwriteUnique(s, p + n, ByteBits(b, 8), t);
  }

  /** PutNextTrailingByte with fewer than eight bits: one bit at a time. */
  method PutBits(buf: array<byte>, lo: nat, offset: nat, b0: byte, validBits: nat)
    requires 0 < validBits < 8 && offset < 8 && 8 * lo + offset + validBits <= 8 * buf.Length
    modifies buf
    ensures buf[..] == Overwrite(old(buf[..]), 8 * lo + offset, ByteBits(b0, validBits))
  {
    hide Bit, SetBitTo, Overwrite, ByteBits, Shifted, BitmapWriter.Image;
    ghost var s := buf[..];
    var p := 8 * lo + offset;
    var b := b0;
    var wr := new BitmapWriter(buf, p, validBits);
    EmptyPrefix(s, p, b0);
    for i := 0 to validBits
      invariant fresh(wr) && wr.buf == buf && wr.start == p && wr.length == validBits
      invariant wr.Valid() && wr.pos == i
      invariant Shifted(b, b0, i)
      invariant wr.Image() == Overwrite(s, p, ByteBits(b0, i))
    {
      LowestBit(b, b0, i);
      AppendBit(s, p, b0, i);
      assert wr.pos < wr.length;
      if b & 0x01 != 0 {
        wr.Set();
      } else {
        wr.Clear();
      }
      wr.Next();
      ShiftedNext(b, b0, i);
      b := b >> 1;
    }
    wr.Finish();
  }

  /** b is b0 with its n lowest bits shifted out. */
  ghost predicate Shifted(b: byte, b0: byte, n: nat)
    requires n <= 8
  {
    forall k :: 0 <= k < 8 - n ==> Bit(b, k) == Bit(b0, k + n)
  }

  lemma {:induction false} ShiftedNext(b: byte, b0: byte, n: nat)
    requires n < 8 && Shifted(b, b0, n)
    ensures Shifted(b >> 1, b0, n + 1)
  {
    hide Bit;
    var c := b >> 1;
    forall k | 0 <= k < 8 - (n + 1)
      ensures Bit(c, k) == Bit(b0, k + n + 1)
    {
      ByteShrBit(b, 1, k);
    }
  }

  lemma {:induction false} LowestBit(b: byte, b0: byte, n: nat)
    requires n < 8 && Shifted(b, b0, n)
    ensures Bit(b0, n) == (b & 0x01 != 0)
  {
    assert Bit(b, 0) == Bit(b0, 0 + n);
  }

  lemma {:induction false} EmptyPrefix(s: seq<byte>, p: nat, b: byte)
    ensures Shifted(b, b, 0) && Overwrite(s, p, ByteBits(b, 0)) == s
  {
    hide Bit;
  }

  lemma {:induction false} AppendBit(s: seq<byte>, p: nat, b: byte, i: nat)
    requires i < 8 && p + i < 8 * |s|
    ensures Overwrite(s, p, ByteBits(b, i + 1)) == SetBitTo(Overwrite(s, p, ByteBits(b, i)), p + i, Bit(b, i))
  {
    hide Bit, SetBitTo;
    OverwriteConcat(s, p, ByteBits(b, i), [Bit(b, i)]);
    assert ByteBits(b, i) + [Bit(b, i)] == ByteBits(b, i + 1);
    var t := Overwrite(s, p, ByteBits(b, i));
    assert Overwrite(t, p + i, [Bit(b, i)]) == SetBitTo(t, p + i, Bit(b, i));
  }

  // ---------------------------------------------------------------- CopyBitmap

  /** Two reads side by side are one longer read. */
  lemma {:induction false} ReadConcat(s: seq<byte>, from: nat, m: nat, n: nat)
    requires InRange(s, from, m + n)
    ensures BitRange(s, from, m + n) == BitRange(s, from, m) + BitRange(s, from + m, n)
  {
    hide BitAt;
  }

  /** One more chunk copied: the reader's chunk appended to what the writer holds. */
  lemma {:induction false} CopyStep(s: seq<byte>, at: nat, src: seq<byte>, from: nat, done: nat, n: nat)
    requires InRange(src, from, done + n) && InRange(s, at, done + n)
    ensures Overwrite(Overwrite(s, at, BitRange(src, from, done)), at + done, BitRange(src, from + done, n))
         == Overwrite(s, at, BitRange(src, from, done + n))
  {
    hide BitAt, Overwrite;
    ReadConcat(src, from, done, n);
    OverwriteConcat(s, at, BitRange(src, from, done), BitRange(src, from + done, n));
  }

  method CopyBitmap(src: seq<byte>, srcOffset: nat, length: nat, dst: array<byte>, dstOffset: nat)
    requires InRange(src, srcOffset, length) && InRange(dst[..], dstOffset, length)
    modifies dst
    ensures dst[..] == Overwrite(old(dst[..]), dstOffset, BitRange(src, srcOffset, length))
  {
    if length == 0 {
      return;
    }
    if srcOffset % 8 != 0 || dstOffset % 8 != 0 {
      CopyUnaligned(src, srcOffset, length, dst, dstOffset);
    } else {
      CopyAligned(src, srcOffset, length, dst, dstOffset);
    }
  }

  /** What the two loops of the word path keep: dst shows exactly the bits read so far. */
  ghost predicate CopiedSoFar(rdr: BitmapWordReader, wr: BitmapWordWriter, s: seq<byte>, at: nat)
    reads rdr, wr, wr.buf
  {
    && rdr.Valid() && wr.Valid()
    && InRange(s, at, rdr.length)
    && wr.left == rdr.length - rdr.pos
    && (wr.left > 0 ==> wr.Position() == at + rdr.pos)
    && wr.buf[..] == Overwrite(s, at, BitRange(rdr.src, rdr.start, rdr.pos))
  }

  method CopyWords(rdr: BitmapWordReader, wr: BitmapWordWriter, ghost s: seq<byte>, ghost at: nat)
    requires CopiedSoFar(rdr, wr, s, at) && rdr.pos == 0
    modifies rdr, wr, wr.buf
    ensures CopiedSoFar(rdr, wr, s, at) && rdr.pos == 64 * rdr.nwords
    ensures rdr.trailingBytes == old(rdr.trailingBytes)
  {
    hide Overwrite, BitRange, WordBits, LoadWord, GetLSB, LowMask, AgreeLow;
    var nwords := rdr.nwords;
    while nwords > 0
      invariant CopiedSoFar(rdr, wr, s, at)
      invariant 0 <= nwords && rdr.pos + 64 * nwords == 64 * rdr.nwords
      invariant rdr.trailingBytes == old(rdr.trailingBytes)
    {
      nwords := nwords - 1;
      ghost var done := rdr.pos;
      var word := rdr.NextWord();
      wr.PutNextWord(word);
      CopyStep(s, at, rdr.src, rdr.start, done, 64);
    }
  }

  method CopyTrailingBytes(rdr: BitmapWordReader, wr: BitmapWordWriter, ghost s: seq<byte>, ghost at: nat)
    requires CopiedSoFar(rdr, wr, s, at) && rdr.pos == 64 * rdr.nwords
    requires rdr.trailingBytes == BytesForBits(rdr.length - rdr.pos)
    modifies rdr, wr, wr.buf
    ensures wr.buf[..] == Overwrite(s, at, BitRange(rdr.src, rdr.start, rdr.length))
  {
    hide Overwrite, BitRange, ByteBits, LoadWord, GetLSB, LowMask, AgreeLow;
    var nbytes := rdr.trailingBytes;
    while nbytes > 0
      invariant CopiedSoFar(rdr, wr, s, at) && 64 * rdr.nwords <= rdr.pos
      invariant 0 <= nbytes && nbytes == BytesForBits(rdr.length - rdr.pos)
    {
      nbytes := nbytes - 1;
      ghost var done := rdr.pos;
      var bt, validBits := rdr.NextTrailingByte();
      wr.PutNextTrailingByte(bt, validBits);
      CopyStep(s, at, rdr.src, rdr.start, done, validBits);
    }
  }

  /** The path that moves words and then bytes between arbitrary bit offsets. */
  method CopyUnaligned(src: seq<byte>, srcOffset: nat, length: nat, dst: array<byte>, dstOffset: nat)
    requires 0 < length && srcOffset + length <= 8 * |src| && dstOffset + length <= 8 * dst.Length
    modifies dst
    ensures dst[..] == Overwrite(old(dst[..]), dstOffset, BitRange(src, srcOffset, length))
  {
    hide Overwrite, BitRange, LoadWord, GetLSB, LowMask, AgreeLow;
    ghost var s := dst[..];
    var rdr := new BitmapWordReader(src, srcOffset, length);
    var wr := new BitmapWordWriter(dst, dstOffset, length);
    NothingCopied(s, dstOffset, src, srcOffset);
    CopyWords(rdr, wr, s, dstOffset);
    CopyTrailingBytes(rdr, wr, s, dstOffset);
  }

  lemma {:induction false} NothingCopied(s: seq<byte>, at: nat, src: seq<byte>, from: nat)
    ensures Overwrite(s, at, BitRange(src, from, 0)) == s
  {
  }

  /** The path that copies whole bytes when both offsets are on a byte boundary. */
  method CopyAligned(src: seq<byte>, srcOffset: nat, length: nat, dst: array<byte>, dstOffset: nat)
    requires 0 < length && srcOffset + length <= 8 * |src| && dstOffset + length <= 8 * dst.Length
    requires srcOffset % 8 == 0 && dstOffset % 8 == 0
    modifies dst
    ensures dst[..] == Overwrite(old(dst[..]), dstOffset, BitRange(src, srcOffset, length))
  {
    hide Bit, BitAt, Overwrite, BitRange, GetLSB, LowMask, MergeLast;
    ghost var s := dst[..];
    var nbytes := BytesForBits(length);
    var from, to := srcOffset / 8, dstOffset / 8;

    // the last byte takes its low bits from src and keeps the others
    var trailingBits := nbytes * 8 - length;
    var trailMask := GetLSB(LowMask(8 - trailingBits));

    forall i | 0 <= i < nbytes - 1 {
      dst[to + i] := src[from + i];
    }
    var lastData := src[from + nbytes - 1];
    var last := dst[to + nbytes - 1];
    dst[to + nbytes - 1] := MergeLast(last, lastData, trailMask);
    AlignedCopy(s, to, src, from, length, trailMask, dst[..]);
  }

  /** *b &= ^mask; *b |= data & mask. */
  function MergeLast(b: byte, data: byte, mask: byte): byte {
    (b & !mask) | (data & mask)
  }

  lemma {:induction false} MergeLastBit(b: byte, data: byte, n: nat, i: nat)
    requires n <= 8 && i < 8
    ensures Bit(MergeLast(b, data, GetLSB(LowMask(n))), i) == if i < n then Bit(data, i) else Bit(b, i)
  {
    hide Bit, LowMask, ByteOf;
    var mask := GetLSB(LowMask(n));
    LowMaskByte(n, i);
    OrByteCommutes(b & !mask, data & mask);
    SelectByteBit(data, b, mask, i);
  }

  /** Byte k after a copy of length bits from byte from on to byte to on. */
  function CopiedByte(s: seq<byte>, to: nat, src: seq<byte>, from: nat, length: nat, mask: byte, k: nat): byte
    requires 0 < length && k < |s| && from + BytesForBits(length) <= |src|
  {
    var last := to + BytesForBits(length) - 1;
    if to <= k < last then src[k - to + from]
    else if k == last then MergeLast(s[k], src[k - to + from], mask)
    else s[k]
  }

  lemma {:induction false} CopiedByteBit(s: seq<byte>, to: nat, src: seq<byte>, from: nat, length: nat, mask: byte,
    j: nat)
    requires 0 < length && j < 8 * |s| && from + BytesForBits(length) <= |src|
    requires mask == GetLSB(LowMask(length - 8 * (BytesForBits(length) - 1)))
    ensures Bit(CopiedByte(s, to, src, from, length, mask, j / 8), j % 8)
         == if 8 * to <= j < 8 * to + length then BitAt(src, 8 * from + j - 8 * to) else BitAt(s, j)
  {
    hide Bit, LowMask, GetLSB, MergeLast;
    var k := j / 8;
    var last := to + BytesForBits(length) - 1;
    if to <= k <= last {
      assert 8 * from + j - 8 * to == 8 * (k - to + from) + j % 8;
      if k == last {
        MergeLastBit(s[k], src[k - to + from], length - 8 * (BytesForBits(length) - 1), j % 8);
      }
    }
  }

  lemma {:induction false} AlignedCopy(s: seq<byte>, to: nat, src: seq<byte>, from: nat, length: nat, mask: byte,
    t: seq<byte>)
    requires 0 < length && |t| == |s|
    requires to + BytesForBits(length) <= |s| && from + BytesForBits(length) <= |src|
    requires mask == GetLSB(LowMask(length - 8 * (BytesForBits(length) - 1)))
    requires forall k :: 0 <= k < |s| ==> t[k] == CopiedByte(s, to, src, from, length, mask, k)
    ensures t == Overwrite(s, 8 * to, BitRange(src, 8 * from, length))
  {
    hide Bit, Overwrite, LowMask, GetLSB, CopiedByte;
    var bits := BitRange(src, 8 * from, length);
    forall j | 0 <= j < 8 * |s|
      ensures BitAt(t, j) == if 8 * to <= j < 8 * to + length then bits[j - 8 * to] else BitAt(s, j)
    {
      CopiedByteBit(s, to, src, from, length, mask, j);
    }
    OverwriteUnique(s, 8 * to, bits, t);
  }

  // ---------------------------------------------------------------- readers and writers, run to their ends

  /** A BitmapReader run over its range. */
  method ReadByBits(bitmap: seq<byte>, offset: nat, length: nat) returns (bits: seq<bool>)
    requires InRange(bitmap, offset, length)
    ensures bits == BitRange(bitmap, offset, length)
  {
    hide BitAt;
    var rdr := new BitmapReader(bitmap, offset, length);
    bits := [];
    for i := 0 to length
      invariant fresh(rdr) && rdr.Valid() && rdr.pos == i
      invariant rdr.bitmap == bitmap && rdr.start == offset && rdr.len == length
      invariant bits == BitRange(bitmap, offset, i)
    {
      var isSet := rdr.Set();
      bits := bits + [isSet];
      rdr.Next();
    }
  }

  /** A BitmapWordReader run for Words and then TrailingBytes steps gives the bits that a BitmapReader gives. */
  method ReadByWords(bitmap: seq<byte>, offset: nat, length: nat) returns (bits: seq<bool>)
    requires 0 < length && InRange(bitmap, offset, length)
    ensures bits == BitRange(bitmap, offset, length)
  {
    hide BitAt, LoadWord, GetLSB, WordBits, ByteBits, BitRange;
    var rdr := new BitmapWordReader(bitmap, offset, length);
    NoneRead(bitmap, offset);
    bits := [];
    for k := 0 to rdr.nwords
      invariant fresh(rdr) && rdr.Valid() && rdr.pos == 64 * k
      invariant rdr.src == bitmap && rdr.start == offset && rdr.length == length
      invariant rdr.trailingBytes == BytesForBits(length - 64 * rdr.nwords)
      invariant bits == BitRange(bitmap, offset, rdr.pos)
    {
      ReadConcat(bitmap, offset, rdr.pos, 64);
      var w := rdr.NextWord();
      bits := bits + WordBits(w);
    }
    var nbytes := rdr.trailingBytes;
    for k := 0 to nbytes
      invariant rdr.Valid() && 64 * rdr.nwords <= rdr.pos
      invariant rdr.src == bitmap && rdr.start == offset && rdr.length == length
      invariant nbytes - k == BytesForBits(length - rdr.pos)
      invariant bits == BitRange(bitmap, offset, rdr.pos)
    {
      ReadConcat(bitmap, offset, rdr.pos, Min(8, length - rdr.pos));
      var b, validBits := rdr.NextTrailingByte();
      assert k + 1 < nbytes ==> validBits == 8;
      bits := bits + ByteBits(b, validBits);
    }
  }

  lemma {:induction false} NoneRead(s: seq<byte>, from: nat)
    ensures BitRange(s, from, 0) == []
  {
  }

  /** A BitmapWriter fed one bit after the other writes what a word writer or CopyBitmap writes. */
  method WriteByBits(bitmap: array<byte>, start: nat, bits: seq<bool>)
    requires InRange(bitmap[..], start, |bits|)
    modifies bitmap
    ensures bitmap[..] == Overwrite(old(bitmap[..]), start, bits)
  {
    hide Overwrite, SetBitTo, BitMask;
    ghost var s := bitmap[..];
    var wr := new BitmapWriter(bitmap, start, |bits|);
    NoneWritten(s, start, bits);
    for i := 0 to |bits|
      invariant fresh(wr) && wr.Valid() && wr.pos == i && wr.length == |bits|
      invariant wr.buf == bitmap && wr.start == start
      invariant wr.Image() == Overwrite(s, start, bits[..i])
    {
      OneWritten(s, start, bits, i);
      if bits[i] {
        wr.Set();
      } else {
        wr.Clear();
      }
      wr.Next();
    }
    assert bits[..|bits|] == bits;
    wr.Finish();
  }

  lemma {:induction false} NoneWritten(s: seq<byte>, at: nat, bits: seq<bool>)
    ensures Overwrite(s, at, bits[..0]) == s
  {
  }

  lemma {:induction false} OneWritten(s: seq<byte>, at: nat, bits: seq<bool>, i: nat)
    requires i < |bits| && at + |bits| <= 8 * |s|
    ensures Overwrite(s, at, bits[..i + 1]) == SetBitTo(Overwrite(s, at, bits[..i]), at + i, bits[i])
  {
    assert bits[..i + 1] == bits[..i] + [bits[i]];
    OverwriteConcat(s, at, bits[..i], [bits[i]]);
    assert [bits[i]][1..] == [];
  }
}
