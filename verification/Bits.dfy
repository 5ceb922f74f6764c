/** Bits of bytes, of 64-bit little-endian words and of byte sequences. */
module Bits {

  type byte = bv8
  type word = bv64

  // ---------------------------------------------------------------- bytes

  /** The table bitutil.BitMask. */
  function BitMask(i: nat): byte
    requires i < 8
  {
    if i == 0 then 1 else if i == 1 then 2 else if i == 2 then 4 else if i == 3 then 8
    else if i == 4 then 16 else if i == 5 then 32 else if i == 6 then 64 else 128
  }

  /** The table bitutil.FlippedBitMask. */
  function FlippedBitMask(i: nat): byte
    requires i < 8
  {
    if i == 0 then 254 else if i == 1 then 253 else if i == 2 then 251 else if i == 3 then 247
    else if i == 4 then 239 else if i == 5 then 223 else if i == 6 then 191 else 127
  }

  predicate Meets(b: byte, mask: byte) {
    b & mask != 0
  }

  predicate Bit(b: byte, i: nat)
    requires i < 8
  {
    Meets(b, BitMask(i))
  }

  function WithBit(b: byte, i: nat, v: bool): byte
    requires i < 8
  {
    if v then b | BitMask(i) else b & FlippedBitMask(i)
  }

  lemma {:induction false} WithBitBits(b: byte, i: nat, v: bool, j: nat)
    requires i < 8 && j < 8
    ensures Bit(WithBit(b, i, v), j) == if j == i then v else Bit(b, j)
  {
    hide BitMask, FlippedBitMask, Meets;
    var m, f, p := BitMask(i), FlippedBitMask(i), BitMask(j);
    MasksDisjoint(i, j);
    if v {
      MeetsSet(b, m, p);
    } else {
      MeetsClear(b, f, p);
    }
  }

  lemma {:induction false} MeetsSet(b: byte, m: byte, p: byte)
    ensures m & p == 0 ==> Meets(b | m, p) == Meets(b, p)
    ensures m == p != 0 ==> Meets(b | m, p)
  {
  }

  lemma {:induction false} MeetsClear(b: byte, f: byte, p: byte)
    ensures f & p == p ==> Meets(b & f, p) == Meets(b, p)
    ensures f & p == 0 ==> !Meets(b & f, p)
  {
  }

  lemma {:induction false} MasksDisjoint(i: nat, j: nat)
    requires i < 8 && j < 8
    ensures i != j ==> BitMask(i) & BitMask(j) == 0 && FlippedBitMask(i) & BitMask(j) == BitMask(j)
    ensures BitMask(i) != 0 && FlippedBitMask(i) & BitMask(i) == 0
  {
  }

  lemma {:induction false} BytesEqual(a: byte, b: byte)
    requires forall i :: 0 <= i < 8 ==> Bit(a, i) == Bit(b, i)
    ensures a == b
  {
    assert Bit(a, 0) == Bit(b, 0) && Bit(a, 1) == Bit(b, 1) && Bit(a, 2) == Bit(b, 2) && Bit(a, 3) == Bit(b, 3);
    assert Bit(a, 4) == Bit(b, 4) && Bit(a, 5) == Bit(b, 5) && Bit(a, 6) == Bit(b, 6) && Bit(a, 7) == Bit(b, 7);
  }

  lemma {:induction false} ByteShrBit(b: byte, n: nat, i: nat)
    requires n <= 8 && i < 8
    ensures Bit(b >> n, i) == (i + n < 8 && Bit(b, i + n))
  {
    if n == 0 {} else if n == 1 {} else if n == 2 {} else if n == 3 {} else if n == 4 {}
    else if n == 5 {} else if n == 6 {} else if n == 7 {} else {}
  }

  lemma {:induction false} ByteShlBit(b: byte, n: nat, i: nat)
    requires n <= 8 && i < 8
    ensures Bit(b << n, i) == (i >= n && Bit(b, i - n))
  {
    if n == 0 {} else if n == 1 {} else if n == 2 {} else if n == 3 {} else if n == 4 {}
    else if n == 5 {} else if n == 6 {} else if n == 7 {} else {}
  }

  lemma {:induction false} OrByteBit(a: byte, b: byte, i: nat)
    requires i < 8
    ensures Bit(a | b, i) == (Bit(a, i) || Bit(b, i))
  {
    hide BitMask;
    MeetsOrByte(a, b, BitMask(i));
  }

  lemma {:induction false} MeetsOrByte(a: byte, b: byte, m: byte)
    ensures Meets(a | b, m) == (Meets(a, m) || Meets(b, m))
  {
  }

  lemma {:induction false} SelectByteBit(a: byte, b: byte, sel: byte, i: nat)
    requires i < 8
    ensures Bit((a & sel) | (b & !sel), i) == if Bit(sel, i) then Bit(a, i) else Bit(b, i)
  {
    hide BitMask, Meets;
    BitMaskSingle(i);
    MeetsSelectByte(a, b, sel, BitMask(i));
  }

  lemma {:induction false} BitMaskSingle(i: nat)
    requires i < 8
    ensures BitMask(i) & (BitMask(i) - 1) == 0
  {
  }

  lemma {:induction false} MeetsSelectByte(a: byte, b: byte, sel: byte, m: byte)
    requires m & (m - 1) == 0
    ensures Meets((a & sel) | (b & !sel), m) == if Meets(sel, m) then Meets(a, m) else Meets(b, m)
  {
  }

  /** Two adjacent bytes seen through a window that starts at bit n of the first. */
  lemma {:induction false} FunnelByteBit(cur: byte, next: byte, lo: byte, hi: byte, n: nat, i: nat)
    requires 0 < n < 8 && i < 8
    requires lo == cur >> n && hi == next << (8 - n)
    ensures Bit(lo | hi, i) == if i + n < 8 then Bit(cur, i + n) else Bit(next, i + n - 8)
  {
    hide Bit;
    OrByteBit(lo, hi, i);
    ByteShrBit(cur, n, i);
    ByteShlBit(next, 8 - n, i);
  }

  lemma {:induction false} RotateByteBit(b: byte, hi: byte, lo: byte, n: nat, i: nat)
    requires 0 < n < 8 && i < 8
    requires hi == b << n && lo == b >> (8 - n)
    ensures Bit(hi | lo, i) == if i < n then Bit(b, i + 8 - n) else Bit(b, i - n)
  {
    hide Bit;
    ByteShrBit(b, 8 - n, i);
    ByteShlBit(b, n, i);
    assert Bit(hi, i) == (i >= n && Bit(b, i - n)) && Bit(lo, i) == (i + (8 - n) < 8 && Bit(b, i + (8 - n)));
    OrByteBit(hi, lo, i);
  }

  // ---------------------------------------------------------------- byte sequences

  predicate BitAt(s: seq<byte>, i: nat)
    requires i < 8 * |s|
  {
    Bit(s[i / 8], i % 8)
  }

  /** A range of bits lies inside the bytes; an empty range lies anywhere. */
  predicate InRange(s: seq<byte>, from: nat, n: nat) {
    n == 0 || from + n <= 8 * |s|
  }

  /** Bits are numbered from the lowest of each byte. */
  lemma {:induction false} BitAtShift(s: seq<byte>, i: nat)
    requires i < 8 * |s|
    ensures BitAt(s, i) <==> (s[i / 8] >> (i % 8)) & 1 == 1
  {
    hide Meets, BitMask;
    BitByShift(s[i / 8], i % 8);
  }

  lemma {:induction false} BitByShift(b: byte, i: nat)
    requires i < 8
    ensures Bit(b, i) <==> (b >> i) & 1 == 1
  {
    if i == 0 {} else if i == 1 {} else if i == 2 {} else if i == 3 {} else if i == 4 {} else if i == 5 {}
    else if i == 6 {} else {}
  }

  function BitRange(s: seq<byte>, from: nat, n: nat): (r: seq<bool>)
    requires InRange(s, from, n)
    ensures |r| == n
  {
    seq(n, i requires 0 <= i < n => BitAt(s, from + i))
  }

  function SetBitTo(s: seq<byte>, i: nat, v: bool): (r: seq<byte>)
    requires i < 8 * |s|
    ensures |r| == |s|
  {
    s[i / 8 := WithBit(s[i / 8], i % 8, v)]
  }

  /** The reference for every bitmap writer: one SetBitTo per bit, in order. */
  function Overwrite(s: seq<byte>, at: nat, bits: seq<bool>): (r: seq<byte>)
    requires InRange(s, at, |bits|)
    ensures |r| == |s|
    decreases |bits|
  {
    if bits == [] then s else Overwrite(SetBitTo(s, at, bits[0]), at + 1, bits[1..])
  }

  lemma {:induction false} SetBitToBits(s: seq<byte>, i: nat, v: bool, j: nat)
    requires i < 8 * |s| && j < 8 * |s|
    ensures BitAt(SetBitTo(s, i, v), j) == if j == i then v else BitAt(s, j)
  {
    hide Bit, WithBit;
    if i / 8 == j / 8 {
      WithBitBits(s[i / 8], i % 8, v, j % 8);
      assert (i % 8 == j % 8) == (i == j);
    }
  }

  lemma {:induction false} OverwriteBits(s: seq<byte>, at: nat, bits: seq<bool>, j: nat)
    requires InRange(s, at, |bits|) && j < 8 * |s|
    ensures BitAt(Overwrite(s, at, bits), j) == if at <= j < at + |bits| then bits[j - at] else BitAt(s, j)
    decreases |bits|
  {
    hide BitAt, SetBitTo;
    if bits != [] {
      OverwriteBits(SetBitTo(s, at, bits[0]), at + 1, bits[1..], j);
      SetBitToBits(s, at, bits[0], j);
    }
  }

  lemma {:induction false} SameBits(s: seq<byte>, t: seq<byte>)
    requires |s| == |t|
    requires forall j :: 0 <= j < 8 * |s| ==> BitAt(s, j) == BitAt(t, j)
    ensures s == t
  {
    hide Bit;
    forall k | 0 <= k < |s|
      ensures s[k] == t[k]
    {
      forall i | 0 <= i < 8
        ensures Bit(s[k], i) == Bit(t[k], i)
      {
        assert BitAt(s, 8 * k + i) == BitAt(t, 8 * k + i);
      }
      BytesEqual(s[k], t[k]);
    }
  }

  /** Bytes that agree with an overwrite bit by bit are that overwrite. */
  lemma {:induction false} OverwriteUnique(s: seq<byte>, at: nat, bits: seq<bool>, t: seq<byte>)
    requires InRange(s, at, |bits|) && |t| == |s|
    requires forall j :: 0 <= j < 8 * |s| ==> BitAt(t, j) == if at <= j < at + |bits| then bits[j - at] else BitAt(s, j)
    ensures t == Overwrite(s, at, bits)
  {
    hide BitAt, Overwrite;
    forall j | 0 <= j < 8 * |s|
      ensures BitAt(t, j) == BitAt(Overwrite(s, at, bits), j)
    {
      OverwriteBits(s, at, bits, j);
    }
    SameBits(t, Overwrite(s, at, bits));
  }

  lemma {:induction false} OverwriteConcat(s: seq<byte>, at: nat, x: seq<bool>, y: seq<bool>)
    requires InRange(s, at, |x| + |y|)
    ensures Overwrite(Overwrite(s, at, x), at + |x|, y) == Overwrite(s, at, x + y)
    decreases |x|
  {
    hide SetBitTo;
    if x == [] {
      assert x + y == y;
    } else {
      OverwriteConcat(SetBitTo(s, at, x[0]), at + 1, x[1..], y);
      assert (x + y)[1..] == x[1..] + y;
    }
  }

  /** What an overwrite stores is what a later read of the same bits gives. */
  lemma {:induction false} OverwriteReadBack(s: seq<byte>, at: nat, bits: seq<bool>)
    requires InRange(s, at, |bits|)
    ensures BitRange(Overwrite(s, at, bits), at, |bits|) == bits
  {
    hide BitAt, Overwrite;
    forall i | 0 <= i < |bits|
      ensures BitRange(Overwrite(s, at, bits), at, |bits|)[i] == bits[i]
    {
      OverwriteBits(s, at, bits, at + i);
    }
  }

  // ---------------------------------------------------------------- words

  predicate WordMeets(w: word, mask: word) {
    w & mask != 0
  }

  /** The word whose byte j (little-endian) is b and whose other bytes are 0. */
  function Place(b: byte, j: nat): word
    requires j < 8
  {
    var w := b as word;
    if j == 0 then w else if j == 1 then w << 8 else if j == 2 then w << 16 else if j == 3 then w << 24
    else if j == 4 then w << 32 else if j == 5 then w << 40 else if j == 6 then w << 48 else w << 56
  }

  function ByteOf(w: word, j: nat): byte
    requires j < 8
  {
    ((if j == 0 then w else if j == 1 then w >> 8 else if j == 2 then w >> 16 else if j == 3 then w >> 24
    else if j == 4 then w >> 32 else if j == 5 then w >> 40 else if j == 6 then w >> 48 else w >> 56) & 0xff) as byte
  }

  function WordMask(k: nat): word
    requires k < 64
  {
    Place(BitMask(k % 8), k / 8)
  }

  predicate WordBit(w: word, k: nat)
    requires k < 64
  {
    WordMeets(w, WordMask(k))
  }

  function WordBits(w: word): (r: seq<bool>)
    ensures |r| == 64
  {
    seq(64, k requires 0 <= k < 64 => WordBit(w, k))
  }

  /** The little-endian word in the first eight bytes of s, and the bytes of a word. */
  function LoadWord(s: seq<byte>): word
    requires |s| >= 8
  {
    (s[0] as word) | (s[1] as word << 8) | (s[2] as word << 16) | (s[3] as word << 24) |
    (s[4] as word << 32) | (s[5] as word << 40) | (s[6] as word << 48) | (s[7] as word << 56)
  }

  function BytesOf(w: word): (s: seq<byte>)
    ensures |s| == 8
  {
    seq(8, j requires 0 <= j < 8 => ByteOf(w, j))
  }

  lemma {:induction false} ByteOfLoad(s: seq<byte>, j: nat)
    requires |s| >= 8 && j < 8
    ensures ByteOf(LoadWord(s), j) == s[j]
  {
    if j == 0 {} else if j == 1 {} else if j == 2 {} else if j == 3 {} else if j == 4 {} else if j == 5 {}
    else if j == 6 {} else {}
  }

  lemma {:induction false} ByteOfStep(w: word, j: nat)
    requires 0 < j < 8
    ensures ByteOf(w, j) == ByteOf(w >> 8, j - 1)
  {
  }

  lemma {:induction false} PlaceStep(m: byte, j: nat)
    requires 0 < j < 8
    ensures Place(m, j) == Place(m, j - 1) << 8
  {
  }

  lemma {:induction false} LowByte(w: word, m: byte)
    ensures WordMeets(w, Place(m, 0)) == Meets(ByteOf(w, 0), m)
  {
  }

  lemma {:induction false} MeetsShift(w: word, p: word)
    ensures WordMeets(w, p << 8) == WordMeets(w >> 8, p)
  {
  }

  lemma {:induction false} MeetsPlace(w: word, m: byte, j: nat)
    requires j < 8
    ensures WordMeets(w, Place(m, j)) == Meets(ByteOf(w, j), m)
  {
    hide *;
    if j == 0 {
      LowByte(w, m);
    } else {
      MeetsPlace(w >> 8, m, j - 1);
      ByteOfStep(w, j);
      PlaceStep(m, j);
      MeetsShift(w, Place(m, j - 1));
    }
  }

  lemma {:induction false} WordBitByte(w: word, k: nat)
    requires k < 64
    ensures WordBit(w, k) == Bit(ByteOf(w, k / 8), k % 8)
  {
    hide Place, ByteOf, BitMask, Meets, WordMeets;
    MeetsPlace(w, BitMask(k % 8), k / 8);
  }

  /** Bit k of a loaded word is bit k of the bytes it was loaded from. */
  lemma {:induction false} LoadBit(s: seq<byte>, k: nat)
    requires |s| >= 8 && k < 64
    ensures WordBit(LoadWord(s), k) == BitAt(s, k)
  {
    hide Bit, ByteOf, LoadWord, WordBit;
    WordBitByte(LoadWord(s), k);
    ByteOfLoad(s, k / 8);
  }

  lemma {:induction false} StoreBit(w: word, k: nat)
    requires k < 64
    ensures BitAt(BytesOf(w), k) == WordBit(w, k)
  {
    hide Bit, ByteOf, WordBit;
    WordBitByte(w, k);
  }

  // ---------------------------------------------------------------- shifts and masks

  lemma {:induction false} PlaceShift(m: byte, j: nat)
    requires j < 8
    requires m & 128 == 0
    ensures Place(m << 1, j) == Place(m, j) << 1
  {
  }

  lemma {:induction false} PlaceCarry(j: nat)
    requires j < 8
    ensures Place(128, j) << 1 == if j < 7 then Place(1, j + 1) else 0
  {
  }

  lemma {:induction false} MaskStep(k: nat)
    requires k < 64
    ensures WordMask(k) << 1 == if k < 63 then WordMask(k + 1) else 0
  {
    hide Place, BitMask;
    var i, j := k % 8, k / 8;
    NextIndex(k);
    BitMaskStep(i);
    if i == 7 {
      PlaceCarry(j);
    } else {
      PlaceShift(BitMask(i), j);
    }
  }

  /** The next bit is in the same byte, or the first one of the next byte. */
  lemma {:induction false} NextIndex(k: nat)
    ensures k % 8 < 7 ==> (k + 1) % 8 == k % 8 + 1 && (k + 1) / 8 == k / 8
    ensures k % 8 == 7 ==> (k + 1) % 8 == 0 && (k + 1) / 8 == k / 8 + 1
  {
  }

  lemma {:induction false} BitMaskStep(i: nat)
    requires i < 8
    ensures i < 7 ==> BitMask(i) & 128 == 0 && BitMask(i + 1) == BitMask(i) << 1
    ensures i == 7 ==> BitMask(i) == 128
    ensures BitMask(0) == 1
  {
  }

  lemma {:induction false} PlaceSingle(m: byte, j: nat)
    requires j < 8
    requires m & (m - 1) == 0 && m != 0
    ensures Place(m, j) & (Place(m, j) - 1) == 0 && Place(m, j) != 0
  {
  }

  predicate Single(m: word) {
    m != 0 && m & (m - 1) == 0
  }

  lemma {:induction false} MaskSingle(k: nat)
    requires k < 64
    ensures Single(WordMask(k))
  {
    PlaceSingle(BitMask(k % 8), k / 8);
  }

  lemma {:induction false} MeetsShr(w: word, m: word)
    ensures WordMeets(w >> 1, m) == WordMeets(w, m << 1)
    ensures !WordMeets(w, 0)
  {
  }

  lemma {:induction false} MeetsShl(w: word, m: word)
    requires m << 1 != 0 && Single(m)
    ensures WordMeets(w << 1, m << 1) == WordMeets(w, m)
  {
  }

  lemma {:induction false} MeetsShlLow(w: word)
    ensures !WordMeets(w << 1, WordMask(0))
  {
  }

  lemma {:induction false} MeetsMerge(a: word, b: word, sel: word, m: word)
    requires Single(m)
    ensures WordMeets((a & sel) | (b & !sel), m) == if WordMeets(sel, m) then WordMeets(a, m) else WordMeets(b, m)
  {
  }

  lemma {:induction false} MeetsOr(a: word, b: word, m: word)
    ensures WordMeets(a | b, m) == (WordMeets(a, m) || WordMeets(b, m))
  {
    assert (a | b) & m == (a & m) | (b & m);
    OrZero(a & m, b & m);
  }

  lemma {:induction false} OrZero(a: word, b: word)
    ensures a | b == 0 <==> a == 0 && b == 0
  {
  }

  /** w >> n and w << n, one place at a time. */
  function Shr(w: word, n: nat): word
    decreases n
  {
    if n == 0 then w else Shr(w >> 1, n - 1)
  }

  function Shl(w: word, n: nat): word
    decreases n
  {
    if n == 0 then w else Shl(w << 1, n - 1)
  }

  /** r is w >> n by the operator. */
  predicate ShiftedRight(w: word, n: bv6, r: word) {
    r == w >> n
  }

  /** r is w << n by the operator. */
  predicate ShiftedLeft(w: word, n: bv6, r: word) {
    r == w << n
  }

  lemma {:induction false} RightStep(w: word, n: bv6)
    requires 0 < n
    ensures (w >> 1) >> (n - 1) == w >> n
  {
  }

  lemma {:induction false} LeftStep(w: word, n: bv6)
    requires 0 < n
    ensures (w << 1) << (n - 1) == w << n
  {
  }

  lemma {:induction false} ShiftRightStep(w: word, n: bv6, r: word)
    requires 0 < n && ShiftedRight(w >> 1, n - 1, r)
    ensures ShiftedRight(w, n, r)
  {
    RightStep(w, n);
  }

  lemma {:induction false} ShiftLeftStep(w: word, n: bv6, r: word)
    requires 0 < n && ShiftedLeft(w << 1, n - 1, r)
    ensures ShiftedLeft(w, n, r)
  {
    LeftStep(w, n);
  }

  lemma {:induction false} NoShift(w: word)
    ensures ShiftedRight(w, 0, w) && ShiftedLeft(w, 0, w)
  {
  }

  lemma {:induction false} OneLess(n: bv6)
    requires 0 < n
    ensures (n - 1) as nat == n as nat - 1 && n as nat > 0
  {
  }

  /** Shr and Shl are the shift operators, for all amounts below 64. */
  lemma {:induction false} ShiftsAreOperators(w: word, n: bv6, k: nat)
    requires n as nat == k
    ensures ShiftedRight(w, n, Shr(w, k)) && ShiftedLeft(w, n, Shl(w, k))
    decreases k
  {
    hide ShiftedRight, ShiftedLeft;
    if n == 0 {
      NoShift(w);
    } else {
      OneLess(n);
      ShiftsAreOperators(w >> 1, n - 1, k - 1);
      ShiftsAreOperators(w << 1, n - 1, k - 1);
      ShiftRightStep(w, n, Shr(w, k));
      ShiftLeftStep(w, n, Shl(w, k));
    }
  }

  lemma {:induction false} ShrBit(w: word, n: nat, k: nat)
    requires k < 64
    ensures WordBit(Shr(w, n), k) == (k + n < 64 && WordBit(w, k + n))
    decreases n
  {
    hide WordMeets, WordMask;
    if n > 0 {
      ShrBit(w >> 1, n - 1, k);
      if k + n - 1 < 64 {
        MaskStep(k + n - 1);
        MeetsShr(w, WordMask(k + n - 1));
      }
    }
  }

  lemma {:induction false} ShlBit(w: word, n: nat, k: nat)
    requires k < 64
    ensures WordBit(Shl(w, n), k) == (k >= n && WordBit(w, k - n))
    decreases n
  {
    hide WordBit;
    if n > 0 {
      ShlBit(w << 1, n - 1, k);
      if k >= n - 1 {
        ShlOneBit(w, w << 1, k - n + 1);
      }
    }
  }

  lemma {:induction false} ShlOneBit(w: word, s: word, k: nat)
    requires k < 64 && s == w << 1
    ensures WordBit(s, k) == (k > 0 && WordBit(w, k - 1))
  {
    hide WordMeets, WordMask, Single;
    if k == 0 {
      MeetsShlLow(w);
    } else {
      MaskStep(k - 1);
      MaskSingle(k - 1);
      MaskNonzero(k);
      MeetsShl(w, WordMask(k - 1));
    }
  }

  lemma {:induction false} MaskNonzero(k: nat)
    requires k < 64
    ensures WordMask(k) != 0
  {
    hide WordMask;
    MaskSingle(k);
  }

  /** (1 << n) - 1: the word whose n lowest bits are set. */
  function LowMask(n: nat): word {
    Shl(1, n) - 1
  }

  lemma {:induction false} OneShl(n: nat)
    requires n <= 8
    ensures Shl(1, n) == if n == 0 then 1 else if n == 1 then 2 else if n == 2 then 4 else if n == 3 then 8
      else if n == 4 then 16 else if n == 5 then 32 else if n == 6 then 64 else if n == 7 then 128 else 256
  {
    assert Shl(1, n) == if n == 0 then 1 else Shl(2, n - 1);
    assert n > 1 ==> Shl(2, n - 1) == Shl(4, n - 2);
    assert n > 2 ==> Shl(4, n - 2) == Shl(8, n - 3);
    assert n > 3 ==> Shl(8, n - 3) == Shl(16, n - 4);
    assert n > 4 ==> Shl(16, n - 4) == Shl(32, n - 5);
    assert n > 5 ==> Shl(32, n - 5) == Shl(64, n - 6);
    assert n > 6 ==> Shl(64, n - 6) == Shl(128, n - 7);
    assert n > 7 ==> Shl(128, n - 7) == Shl(256, n - 8);
  }

  lemma {:induction false} LowMaskByte(n: nat, i: nat)
    requires n <= 8 && i < 8
    ensures Bit(ByteOf(LowMask(n), 0), i) == (i < n)
  {
    hide Shl;
    OneShl(n);
  }

  lemma {:induction false} LowMaskBit(n: nat, k: nat)
    requires n < 8 && k < 64
    ensures WordBit(LowMask(n), k) == (k < n)
  {
    hide WordBit, Bit, LowMask, ByteOf;
    WordBitByte(LowMask(n), k);
    if k < 8 {
      LowMaskByte(n, k);
    } else {
      LowMaskHigh(n, k / 8);
      ZeroByte(k % 8);
    }
  }

  lemma {:induction false} LowMaskHigh(n: nat, j: nat)
    requires n < 8 && 0 < j < 8
    ensures ByteOf(LowMask(n), j) == 0
  {
    hide Shl;
    OneShl(n);
  }

  lemma {:induction false} ZeroByte(i: nat)
    requires i < 8
    ensures !Bit(0, i)
  {
  }

  lemma {:induction false} OrBit(a: word, b: word, k: nat)
    requires k < 64
    ensures WordBit(a | b, k) == (WordBit(a, k) || WordBit(b, k))
  {
    hide WordMeets, WordMask;
    MeetsOr(a, b, WordMask(k));
  }

  lemma {:induction false} SelectBit(a: word, b: word, sel: word, k: nat)
    requires k < 64
    ensures WordBit((a & sel) | (b & !sel), k) == if WordBit(sel, k) then WordBit(a, k) else WordBit(b, k)
  {
    hide WordMeets, WordMask, Single;
    MaskSingle(k);
    MeetsMerge(a, b, sel, WordMask(k));
  }

  /** (a & sel) | (b &^ sel) with the low mask as selector. */
  lemma {:induction false} MergeBit(a: word, b: word, sel: word, n: nat, k: nat)
    requires n < 8 && k < 64 && sel == LowMask(n)
    ensures WordBit((a & sel) | (b & !sel), k) == if k < n then WordBit(a, k) else WordBit(b, k)
  {
    hide WordBit, LowMask;
    LowMaskBit(n, k);
    SelectBit(a, b, sel, k);
  }

  /** Two adjacent words seen through a window that starts at bit n of the first. */
  lemma {:induction false} FunnelBit(cur: word, next: word, lo: word, hi: word, n: nat, k: nat)
    requires 0 < n < 8 && k < 64
    requires lo == Shr(cur, n) && hi == Shl(next, 64 - n)
    ensures WordBit(lo | hi, k) == if k + n < 64 then WordBit(cur, k + n) else WordBit(next, k + n - 64)
  {
    hide WordBit, Shr, Shl;
    OrBit(lo, hi, k);
    ShrBit(cur, n, k);
    ShlBit(next, 64 - n, k);
  }

  /** A word rotated left by n. */
  lemma {:induction false} RotateBit(w: word, hi: word, lo: word, n: nat, k: nat)
    requires 0 < n < 8 && k < 64
    requires hi == Shl(w, n) && lo == Shr(w, 64 - n)
    ensures WordBit(hi | lo, k) == if k < n then WordBit(w, k + 64 - n) else WordBit(w, k - n)
  {
    hide WordBit, Shr, Shl;
    OrBit(hi, lo, k);
    ShrBit(w, 64 - n, k);
    ShlBit(w, n, k);
  }

  /** The conversions getLSB and setLSB of endian_default.go. */
  function GetLSB(w: word): byte {
    ByteOf(w, 0)
  }

  function SetLSB(w: word, b: byte): (r: word)
    ensures GetLSB(r) == b
  {
    (w & !0xff) | (b as word)
  }
}
