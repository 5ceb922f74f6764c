/** The validity bitmap that every array builder grows (arrow/array/builder.go). */
module Builders {
  import opened Bits
  import opened Bitmaps
  import opened BitUtil
  import opened Memory

  /** No bit from position n on is set. */
  ghost predicate ZeroFrom(s: seq<byte>, n: nat) {
    forall j :: n <= j < 8 * |s| ==> !BitAt(s, j)
  }

  function Invalid(bits: seq<bool>): int {
    |bits| - Count(bits)
  }

  class Builder {
    var nullBitmap: Buffer?
    var nulls: int
    var length: nat
    var capacity: nat

    ghost function Repr(): set<object>
      reads this, nullBitmap
    {
      if nullBitmap == null then {this} else var b: Buffer := nullBitmap; {this, b, b.buf}
    }

    ghost function Image(): seq<byte>
      reads this, nullBitmap, Repr()
    {
      if nullBitmap == null then [] else nullBitmap.buf[..]
    }

    /** The bitmap has room for what has been appended. */
    ghost predicate Sized()
      reads this, nullBitmap, Repr()
    {
      && length <= capacity
      && (nullBitmap == null ==> capacity == 0)
      && (nullBitmap != null ==> nullBitmap.Valid() && capacity <= 8 * nullBitmap.length)
    }

    /** The validity of everything appended so far. */
    ghost function Validity(): (r: seq<bool>)
      requires Sized()
      reads this, nullBitmap, Repr()
      ensures |r| == length
    {
      BitRange(Image(), 0, length)
    }

    ghost predicate Valid()
      reads this, nullBitmap, Repr()
    {
      && Sized()
      && nulls == Invalid(Validity())
      && ZeroFrom(Image(), length)
    }

    constructor ()
      ensures Valid() && length == 0 && fresh(Repr()) && nullBitmap == null
    {
      nullBitmap := null;
      nulls := 0;
      length := 0;
      capacity := 0;
    }

    /** init, on a builder without a bitmap. */
    method Init(cap: nat)
      requires Valid() && nullBitmap == null
      modifies this
      ensures Valid() && length == 0 && capacity == cap && nullBitmap != null && fresh(Repr() - {this})
      ensures nullBitmap.length == (cap + 7) / 8
    {
      hide BitAt, Count, ZeroFrom;
      var bitmap := new Buffer();
      bitmap.Resize(CeilByte(cap) / 8);
      ZeroBytes(bitmap.buf, 0);
      nullBitmap := bitmap;
      capacity := cap;
      AllZero(bitmap.buf[..]);
    }

    /**
     resize, on a builder that has a bitmap. Cutting off entries leaves their bits
     behind: the tail stays zero only if the allocated bits cut off were zero.
     */
    method Resize(newBits: nat)
      requires Valid() && nullBitmap != null
      modifies Repr()
      ensures Sized() && capacity == newBits && nullBitmap == old(nullBitmap) && fresh(Repr() - old(Repr()))
      ensures nullBitmap.length == (newBits + 7) / 8
      ensures length == if newBits < old(length) then newBits else old(length)
      ensures Validity() == old(Validity())[..length] && nulls == Invalid(Validity())
      ensures newBits >= old(length) ==> Valid()
      ensures newBits < old(length) ==>
        |Image()| <= |old(Image())| && (Valid() <==> ZeroFrom(old(Image())[..|Image()|], newBits))
    {
      hide BitAt, Count, ZeroFrom, BitRange;
      ghost var s := Image();
      var newBytesN := CeilByte(newBits) / 8;
      var oldBytesN := nullBitmap.length;
      nullBitmap.Resize(newBytesN);
      capacity := newBits;
      if oldBytesN < newBytesN {
        ZeroBytes(nullBitmap.buf, oldBytesN);
        GrowBits(s, Image(), length, oldBytesN);
      } else {
        assert Image() == s[..|Image()|];
        CutBits(s, |Image()|, if newBits < length then newBits else length);
      }
      if newBits < length {
        ReadPrefix(s, newBits, length);
        length := newBits;
        var count := CountSetBits(nullBitmap.buf[..], 0, newBits);
        nulls := newBits - count;
      }
    }

    /** The first half of reserve. */
    method EnsureBitmap()
      requires Valid()
      modifies this
      ensures Valid() && Validity() == old(Validity()) && nullBitmap != null
      ensures length == old(length) && capacity == old(capacity) && nulls == old(nulls)
      ensures old(nullBitmap) != null ==> nullBitmap == old(nullBitmap)
      ensures Image() == old(Image())
      ensures fresh(Repr() - old(Repr()))
    {
      if nullBitmap == null {
        nullBitmap := new Buffer();
      }
    }

    /**
     reserve: where there is room already, nothing changes; otherwise the capacity
     becomes the power of two above what is needed. Room is never taken back.
     */
    method Reserve(elements: nat)
      requires Valid()
      modifies Repr()
      ensures Valid() && Validity() == old(Validity()) && nullBitmap != null
      ensures length + elements <= capacity && fresh(Repr() - old(Repr()))
      ensures length == old(length) && nulls == old(nulls) && capacity >= old(capacity)
      ensures old(nullBitmap) != null ==> nullBitmap == old(nullBitmap)
      ensures length + elements <= old(capacity) ==> capacity == old(capacity) && Image() == old(Image())
      ensures length + elements > old(capacity) ==>
        IsPowerOf2(capacity) && length + elements < capacity <= 2 * (length + elements)
    {
      EnsureBitmap();
      if length + elements > capacity {
        Resize(NextPowerOf2(length + elements));
      }
    }

    /** reset, once the bitmap has been handed over. */
    method Reset()
      modifies this
      ensures Valid() && length == 0 && nullBitmap == null
    {
      nullBitmap := null;
      nulls := 0;
      length := 0;
      capacity := 0;
    }

    method UnsafeAppendBoolToBitmap(isValid: bool)
      requires Valid() && length < capacity
      modifies Repr()
      ensures Valid() && Validity() == old(Validity()) + [isValid]
      ensures length == old(length) + 1 && capacity == old(capacity)
      ensures nullBitmap == old(nullBitmap) && Repr() == old(Repr())
    {
      hide BitAt, BitRange, Count, Overwrite, ZeroFrom;
      ghost var s := Image();
      ghost var n := length;
      if isValid {
        SetBit(nullBitmap.buf, length);
      } else {
        nulls := nulls + 1;
      }
      length := length + 1;
      OverwriteOne(s, n, isValid);
      Appended(s, n, [isValid]);
    }

    method UnsafeSetValid(n: nat)
      requires Valid() && length + n <= capacity && nullBitmap != null
      modifies Repr()
      ensures Valid() && Validity() == old(Validity()) + Repeat(true, n)
      ensures length == old(length) + n && capacity == old(capacity)
      ensures nullBitmap == old(nullBitmap) && Repr() == old(Repr())
    {
      hide BitAt, BitRange, Count, Overwrite, ZeroFrom, Invalid, Repeat;
      ghost var s := Image();
      SetTrue(nullBitmap.buf, length, n);
      Appended(s, length, Repeat(true, n));
      AllValid(n);
      length := length + n;
    }

    /** Without validity flags, the next n entries are valid. */
    method UnsafeAppendBoolsToBitmap(valid: seq<bool>, n: nat)
      requires Valid() && nullBitmap != null
      requires length + (if |valid| == 0 then n else |valid|) <= capacity
      modifies Repr()
      ensures Valid() && Validity() == old(Validity()) + if |valid| == 0 then Repeat(true, n) else valid
      ensures length == old(length) + (if |valid| == 0 then n else |valid|) && capacity == old(capacity)
      ensures nullBitmap == old(nullBitmap) && Repr() == old(Repr())
    {
      hide BitAt, BitRange, Count, Overwrite, ZeroFrom, Invalid, Repeat;
      if |valid| == 0 {
        UnsafeSetValid(n);
        return;
      }
      ghost var s := Image();
      var invalid := WriteBools(nullBitmap.buf, length, valid);
      nulls := nulls + invalid;
      Appended(s, length, valid);
      length := length + |valid|;
    }
  }

  /** The loops of unsafeSetValid: bits up to a byte boundary, then whole bytes, then the bits that are left. */
  method SetTrue(bits: array<byte>, length: nat, n: nat)
    requires length + n <= 8 * bits.Length
    modifies bits
    ensures bits[..] == Overwrite(old(bits[..]), length, Repeat(true, n))
  {
    hide Overwrite, Repeat;
    ghost var s := bits[..];
    var padToByte := if 8 - length % 8 < n then 8 - length % 8 else n;
    if padToByte == 8 {
      padToByte := 0;
    }
    SetBits(bits, length, length + padToByte);
    var start := (length + padToByte) / 8;
    var fastLength := (n - padToByte) / 8;
    PadAligned(length, n, padToByte);
    SetBytes(bits, start, start + fastLength, length + padToByte);
    AllTrueConcat(s, length, padToByte, 8 * fastLength);
    var newLength := length + n;
    SetBits(bits, length + padToByte + fastLength * 8, newLength);
    AllTrueConcat(s, length, padToByte + 8 * fastLength, n - padToByte - 8 * fastLength);
  }

  /** The loop of unsafeAppendBoolsToBitmap: one byte is kept in a local and stored when it is full. */
  method WriteBools(bits: array<byte>, length: nat, valid: seq<bool>) returns (invalid: int)
    requires 0 < |valid| && length + |valid| <= 8 * bits.Length
    modifies bits
    ensures bits[..] == Overwrite(old(bits[..]), length, valid)
    ensures invalid == Invalid(valid)
  {
    hide Overwrite, Invalid, SetBitTo, BitMask, FlippedBitMask;
    ghost var s := bits[..];
    var byteOffset, bitOffset := length / 8, length % 8;
    var bitSet := bits[byteOffset];
    invalid := 0;
    ghost var image := s;
    NothingAppended(s, length, valid);
    for i := 0 to |valid|
      invariant 0 <= bitOffset <= 8 && 8 * byteOffset + bitOffset == length + i
      invariant byteOffset < bits.Length && (0 < i ==> 0 < bitOffset)
      invariant image == Overwrite(s, length, valid[..i]) && image == bits[..][byteOffset := bitSet]
      invariant invalid == Invalid(valid[..i])
    {
      if bitOffset == 8 {
        bitOffset := 0;
        bits[byteOffset] := bitSet;
        assert bits[..] == image;
        byteOffset := byteOffset + 1;
        bitSet := bits[byteOffset];
      }
      OneMore(s, length, valid, i);
      assert image == bits[..][byteOffset := bitSet];
      image := SetBitTo(image, 8 * byteOffset + bitOffset, valid[i]);
      BitOfByte(bits[..], byteOffset, bitSet, bitOffset, valid[i]);
      if valid[i] {
        bitSet := bitSet | BitMask(bitOffset);
      } else {
        bitSet := bitSet & FlippedBitMask(bitOffset);
        invalid := invalid + 1;
      }
      bitOffset := bitOffset + 1;
    }
    assert valid[..|valid|] == valid;
    if bitOffset != 0 {
      bits[byteOffset] := bitSet;
    }
    assert bits[..] == image;
  }

  lemma {:induction false} AllZero(s: seq<byte>)
    requires forall k :: 0 <= k < |s| ==> s[k] == 0
    ensures ZeroFrom(s, 0)
  {
  }

  /** Growing keeps the first m bytes and clears the others. */
  lemma {:induction false} GrowBits(s: seq<byte>, t: seq<byte>, n: nat, m: nat)
    requires m <= |s| && m <= |t| && n <= 8 * m && ZeroFrom(s, n)
    requires forall k :: 0 <= k < |t| ==> t[k] == if k < m then s[k] else 0
    ensures ZeroFrom(t, n) && BitRange(t, 0, n) == BitRange(s, 0, n)
  {
    hide Bit;
    forall j | 0 <= j < 8 * |t|
      ensures BitAt(t, j) == (j < 8 * m && BitAt(s, j))
    {
      ZeroByte(j % 8);
    }
  }

  /** Cutting keeps the bits of the bytes that are left. */
  lemma {:induction false} CutBits(s: seq<byte>, m: nat, n: nat)
    requires m <= |s| && n <= 8 * m
    ensures BitRange(s[..m], 0, n) == BitRange(s, 0, n)
    ensures ZeroFrom(s, n) ==> ZeroFrom(s[..m], n)
  {
    hide Bit;
    assert forall j :: 0 <= j < 8 * m ==> BitAt(s[..m], j) == BitAt(s, j);
  }

  lemma {:induction false} ReadPrefix(s: seq<byte>, n: nat, m: nat)
    requires n <= m <= 8 * |s|
    ensures BitRange(s, 0, n) == BitRange(s, 0, m)[..n]
  {
    hide BitAt;
  }

  /** memory.Set(bits[from:], 0) */
  method ZeroBytes(bits: array<byte>, from: nat)
    requires from <= bits.Length
    modifies bits
    ensures forall k :: 0 <= k < bits.Length ==> bits[k] == if k < from then old(bits[k]) else 0
  {
    forall k | from <= k < bits.Length {
      bits[k] := 0;
    }
  }

  method SetBits(bits: array<byte>, from: nat, to: nat)
    requires from <= to <= 8 * bits.Length
    modifies bits
    ensures bits[..] == Overwrite(old(bits[..]), from, Repeat(true, to - from))
  {
    hide Overwrite, SetBitTo;
    NothingWritten(bits[..], from, true);
    for i := from to to
      invariant bits[..] == Overwrite(old(bits[..]), from, Repeat(true, i - from))
    {
      AllTrueConcat(old(bits[..]), from, i - from, 1);
      SingleWrite(bits[..], i);
      SetBit(bits, i);
    }
  }

  lemma {:induction false} SingleWrite(s: seq<byte>, i: nat)
    requires i < 8 * |s|
    ensures Overwrite(s, i, Repeat(true, 1)) == SetBitTo(s, i, true)
  {
    assert Repeat(true, 1) == [true] && [true][1..] == [];
  }

  /** memory.Set(bits[from:to], 0xff); with no bytes to set, at may be anywhere. */
  method SetBytes(bits: array<byte>, from: nat, to: nat, ghost at: nat)
    requires from <= to && to <= bits.Length && (from < to ==> at == 8 * from)
    modifies bits
    ensures bits[..] == Overwrite(old(bits[..]), at, Repeat(true, 8 * (to - from)))
  {
    ghost var s := bits[..];
    forall k | from <= k < to {
      bits[k] := 255;
    }
    if from < to {
      FilledRange(s, 8 * from, 8 * to, true, bits[..]);
    } else {
      NothingWritten(s, at, true);
      assert bits[..] == s;
    }
  }

  lemma {:induction false} AllTrueConcat(s: seq<byte>, at: nat, m: nat, n: nat)
    requires InRange(s, at, m + n)
    ensures Overwrite(Overwrite(s, at, Repeat(true, m)), at + m, Repeat(true, n))
         == Overwrite(s, at, Repeat(true, m + n))
  {
    OverwriteConcat(s, at, Repeat(true, m), Repeat(true, n));
    assert Repeat(true, m) + Repeat(true, n) == Repeat(true, m + n);
  }

  lemma {:induction false} PadAligned(length: nat, n: nat, pad: nat)
    requires pad == if length % 8 == 0 && n >= 8 then 0 else if 8 - length % 8 < n then 8 - length % 8 else n
    ensures pad <= n && 8 * ((n - pad) / 8) <= n - pad
    ensures (n - pad) / 8 > 0 ==> 8 * ((length + pad) / 8) == length + pad
  {
  }

  lemma {:induction false} AllValid(n: nat)
    ensures Invalid(Repeat(true, n)) == 0
  {
    if n > 0 {
      AllValid(n - 1);
      assert Repeat(true, n)[1..] == Repeat(true, n - 1);
    }
  }

  lemma {:induction false} BitOfByte(s: seq<byte>, k: nat, b: byte, i: nat, v: bool)
    requires k < |s| && i < 8
    ensures SetBitTo(s[k := b], 8 * k + i, v) == s[k := WithBit(b, i, v)]
  {
    hide WithBit;
  }

  lemma {:induction false} NothingAppended(s: seq<byte>, n: nat, valid: seq<bool>)
    requires n < 8 * |s|
    ensures Overwrite(s, n, valid[..0]) == s && Invalid(valid[..0]) == 0
    ensures s[n / 8 := s[n / 8]] == s
  {
  }

  lemma {:induction false} OneMore(s: seq<byte>, n: nat, valid: seq<bool>, i: nat)
    requires i < |valid| && n + |valid| <= 8 * |s|
    ensures Overwrite(s, n, valid[..i + 1]) == SetBitTo(Overwrite(s, n, valid[..i]), n + i, valid[i])
    ensures Invalid(valid[..i + 1]) == Invalid(valid[..i]) + if valid[i] then 0 else 1
  {
    assert valid[..i + 1] == valid[..i] + [valid[i]];
    OverwriteConcat(s, n, valid[..i], [valid[i]]);
    CountConcat(valid[..i], [valid[i]]);
    assert [valid[i]][1..] == [];
  }

  /** Appending over a zero tail: the new validity is the old one and the new bits, and the tail stays zero. */
  lemma {:induction false} Appended(s: seq<byte>, n: nat, bits: seq<bool>)
    requires n + |bits| <= 8 * |s| && ZeroFrom(s, n)
    ensures BitRange(Overwrite(s, n, bits), 0, n + |bits|) == BitRange(s, 0, n) + bits
    ensures ZeroFrom(Overwrite(s, n, bits), n + |bits|)
    ensures Invalid(BitRange(s, 0, n) + bits) == Invalid(BitRange(s, 0, n)) + Invalid(bits)
  {
    hide BitAt, Overwrite, Count;
    var t := Overwrite(s, n, bits);
    forall j | 0 <= j < 8 * |s|
      ensures BitAt(t, j) == if n <= j < n + |bits| then bits[j - n] else BitAt(s, j)
    {
      OverwriteBits(s, n, bits, j);
    }
    CountConcat(BitRange(s, 0, n), bits);
  }

  /** One bit over a zero tail; a false one is there already. */
  lemma {:induction false} OverwriteOne(s: seq<byte>, n: nat, v: bool)
    requires n < 8 * |s| && ZeroFrom(s, n)
    ensures Overwrite(s, n, [v]) == if v then SetBitTo(s, n, true) else s
    ensures Invalid([v]) == if v then 0 else 1
  {
    assert Overwrite(s, n, [v]) == SetBitTo(s, n, v) by {
      assert [v][1..] == [];
    }
    assert [v][1..] == [];
    if !v {
      hide BitAt, SetBitTo;
      forall j | 0 <= j < 8 * |s|
        ensures BitAt(SetBitTo(s, n, false), j) == BitAt(s, j)
      {
        SetBitToBits(s, n, false, j);
      }
      SameBits(SetBitTo(s, n, false), s);
    }
  }
}
